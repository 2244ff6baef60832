/**
 * rustdoc's parser for the info string of a fenced code block: a tokenizer over the
 * characters of the string (`TagIterator`) and a classification of the tokens
 * (`LangString::parse`) that decides, among other things, whether the block is Rust.
 *
 * Positions are character indices into the info string. The source uses the byte offsets
 * of `char_indices`; every offset it computes is either such an offset or one past an
 * ASCII quote or dot, so the two agree character for character.
 */
module LangStrings {
  import opened Wrappers
  import opened Seqs
  import opened Text

  // ----- characters -----

  predicate IsAsciiAlpha(c: char)
  {
    ('A' <= c <= 'Z') || ('a' <= c <= 'z')
  }

  /** `LEADINGCHAR` of the grammar. */
  predicate IsLeading(c: char)
  {
    c == '_' || c == '-' || c == ':' || IsAsciiAlpha(c) || IsAsciiDigit(c)
  }

  /** `CHAR` of the grammar: the leading characters and the punctuation `.!#$%&*+/;<>?@^|~`. */
  predicate IsBareword(c: char)
  {
    IsLeading(c) || c in ".!#$%&*+/;<>?@^|~"
  }

  /** `COMMA` or `WS`. */
  predicate IsSeparator(c: char)
  {
    c == ' ' || c == ',' || c == '\t'
  }

  // ----- tokens -----

  datatype Token =
    | LangToken(text: string)
    | ClassAttribute(name: string)
    | KeyValueAttribute(key: string, value: string)

  /** `Indices`: the range `start..end` of a token's text. */
  datatype Indices = Indices(start: nat, end: nat)

  /** `t` occurs in `data` at `a`. */
  predicate OccursAt(t: string, data: string, a: int)
  {
    0 <= a <= |data| - |t| && data[a..a + |t|] == t
  }

  /** `t` occurs in `data`. */
  ghost predicate Within(t: string, data: string)
  {
    exists a :: OccursAt(t, data, a)
  }

  /** Every text a token carries is a piece of the info string. */
  ghost predicate FromData(t: Token, data: string)
  {
    match t
    case LangToken(s) => Within(s, data)
    case ClassAttribute(s) => Within(s, data)
    case KeyValueAttribute(k, v) => Within(k, data) && Within(v, data)
  }

  lemma SliceWithin(data: string, a: nat, b: nat)
    requires a <= b <= |data|
    ensures Within(data[a..b], data)
  {
    assert OccursAt(data[a..b], data, a);
  }

  /** The error list grew by at most one message. */
  predicate Extends(before: seq<string>, after: seq<string>)
  {
    after == before || (|after| == |before| + 1 && after[..|before|] == before)
  }

  /** `ExtraInfo::error_invalid_codeblock_attr`: how every message is recorded. */
  function Invalid(msg: string): string
  {
    "invalid codeblock attribute: " + msg
  }

  const UnclosedQuote := "unclosed quote string `\"`"
  const UnclosedBlock := "unclosed attribute block (`{}`): missing `}` at the end"
  const UnclosedComment := "unclosed comment: missing `)` at the end"
  const UnexpectedEnd := "unexpected end"

  // ----- the tokenizer as functions of its state -----

  /** The state of a `TagIterator` as a value: the cursor, whether it is inside `{…}`, and the messages so far. */
  datatype Cursor = Cursor(pos: nat, inBlock: bool, errors: seq<string>)
  {
    /** `emit_error`: the message is recorded. */
    function Fail(msg: string): Cursor
    {
      this.(errors := errors + [Invalid(msg)])
    }
  }

  /** What one call yields, and the state after it. */
  datatype Lexed<T> = Lexed(value: Option<T>, cur: Cursor)

  /** The runs of characters the iterator skips over, each named by what it skips. */
  datatype Run = Separators | Barewords | NonQuotes | NonParens

  /** The character that ends a run. */
  predicate Stops(run: Run, c: char)
  {
    match run
    case Separators => !IsSeparator(c)
    case Barewords => !IsBareword(c)
    case NonQuotes => c == '"'
    case NonParens => c == ')'
  }

  /** The first position at or after `p` where the run stops, or the end of the string. */
  function Scan(data: string, p: nat, run: Run): (q: nat)
    requires p <= |data|
    ensures p <= q <= |data|
    ensures forall k :: p <= k < q ==> !Stops(run, data[k])
    ensures q < |data| ==> Stops(run, data[q])
    decreases |data| - p
  {
    if p == |data| || Stops(run, data[p]) then p else Scan(data, p + 1, run)
  }

  /** A call moves forward within the string, records at most one message, and yields something only without one. */
  predicate Advances<T>(data: string, cur: Cursor, r: Lexed<T>)
  {
    && cur.pos <= r.cur.pos <= |data| && Extends(cur.errors, r.cur.errors)
    && (r.value.Some? ==> r.cur.errors == cur.errors)
  }

  /** `parse_string` after an opening quote at `start`: the text up to the next quote, which is consumed. */
  function LexString(data: string, cur: Cursor, start: nat): (r: Lexed<Indices>)
    requires cur.pos <= |data|
    ensures Advances(data, cur, r) && r.cur.inBlock == cur.inBlock
    ensures r.value.Some? ==>
      && cur.pos < r.cur.pos && r.value.value == Indices(start + 1, r.cur.pos - 1) && data[r.cur.pos - 1] == '"'
      && forall k :: cur.pos <= k < r.cur.pos - 1 ==> data[k] != '"'
    ensures r.value.None? <==> forall k :: cur.pos <= k < |data| ==> data[k] != '"'
    ensures r.value.None? ==> r.cur == cur.(pos := |data|).Fail(UnclosedQuote)
  {
    var q := Scan(data, cur.pos, NonQuotes);
    if q < |data| then Lexed(Some(Indices(start + 1, q)), cur.(pos := q + 1))
    else Lexed(None, cur.(pos := q).Fail(UnclosedQuote))
  }

  /** `parse_token`: the bareword run from `start`, which must not reach the end of the string. */
  function LexToken(data: string, cur: Cursor, start: nat): (r: Lexed<Indices>)
    requires cur.pos <= |data|
    ensures Advances(data, cur, r) && r.cur.inBlock == cur.inBlock
    ensures forall k :: cur.pos <= k < r.cur.pos ==> IsBareword(data[k])
    ensures r.value.Some? ==> r.value.value == Indices(start, r.cur.pos) && r.cur.pos < |data| && !IsBareword(data[r.cur.pos])
    ensures r.value.None? ==> r.cur == cur.(pos := |data|).Fail(UnexpectedEnd)
  {
    var q := Scan(data, cur.pos, Barewords);
    if q < |data| then Lexed(Some(Indices(start, q)), cur.(pos := q))
    else Lexed(None, cur.(pos := q).Fail(UnexpectedEnd))
  }

  /** The characters that may follow a token: `}`, a separator and `(`. */
  predicate Delimits(c: char)
  {
    c == '}' || IsSeparator(c) || c == '('
  }

  /** `check_after_token`: the end of the string or a delimiter is accepted, anything else recorded. */
  function AfterToken(data: string, cur: Cursor): (r: Cursor)
    requires cur.pos <= |data|
    ensures r.pos == cur.pos && r.inBlock == cur.inBlock
    ensures r.errors == cur.errors <==> cur.pos == |data| || Delimits(data[cur.pos])
    ensures r.errors != cur.errors ==> r == cur.Fail("unexpected `" + [data[cur.pos]] + "` character")
  {
    if cur.pos < |data| && !Delimits(data[cur.pos]) then cur.Fail("unexpected `" + [data[cur.pos]] + "` character")
    else cur
  }

  /** A token, when `check_after_token` accepts what follows it. */
  function Checked(data: string, cur: Cursor, t: Token): Lexed<Token>
    requires cur.pos <= |data|
  {
    var after := AfterToken(data, cur);
    Lexed(if after == cur then Some(t) else None, after)
  }

  /** `parse_class` after a `.` at `start`: the bareword run after the dot, which must be non-empty and delimited. */
  function LexClass(data: string, cur: Cursor, start: nat): (r: Lexed<Token>)
    requires start < cur.pos <= |data|
    ensures Advances(data, cur, r) && r.cur.inBlock == cur.inBlock
    ensures r.value.None? ==> r.cur.errors != []
    ensures var q := Scan(data, cur.pos, Barewords);
      && r.cur.pos == q
      && (r.value.Some? <==> start + 1 < q && (q == |data| || Delimits(data[q])))
      && (r.value.Some? ==> r.value.value == ClassAttribute(data[start + 1..q]))
  {
    var q := Scan(data, cur.pos, Barewords);
    var name := data[start + 1..q];
    var at := cur.(pos := q);
    if name == [] then
      Lexed(None, at.Fail(if q < |data| then "unexpected `" + [data[q]] + "` character after `.`" else "missing character after `.`"))
    else Checked(data, at, ClassAttribute(name))
  }

  /** After a key: the `=` that must follow, consumed with the character that is found instead. */
  function LexEquals(data: string, cur: Cursor): (r: Cursor)
    requires cur.pos <= |data|
    ensures r.inBlock == cur.inBlock && r.pos == (if cur.pos < |data| then cur.pos + 1 else cur.pos)
    ensures r.errors == cur.errors <==> cur.pos < |data| && data[cur.pos] == '='
    ensures r.errors != cur.errors ==> r.errors == cur.errors + [Invalid(
      if cur.pos == |data| then UnexpectedEnd else "expected `=`, found `" + [data[cur.pos]] + "`")]
  {
    if cur.pos == |data| then cur.Fail(UnexpectedEnd)
    else if data[cur.pos] != '=' then cur.(pos := cur.pos + 1).Fail("expected `=`, found `" + [data[cur.pos]] + "`")
    else cur.(pos := cur.pos + 1)
  }

  /** After `=`: a quoted string or a bareword. */
  function LexValue(data: string, cur: Cursor): (r: Lexed<Indices>)
    requires cur.pos <= |data|
    ensures Advances(data, cur, r) && r.cur.inBlock == cur.inBlock
    ensures r.value.None? ==> r.cur.errors != []
    ensures r.value.Some? ==> cur.pos <= r.value.value.start <= r.value.value.end <= r.cur.pos
    ensures cur.pos == |data| ==> r == Lexed(None, cur.Fail("expected value after `=`"))
    ensures cur.pos < |data| && data[cur.pos] != '"' && !IsBareword(data[cur.pos]) ==>
      r == Lexed(None, cur.(pos := cur.pos + 1).Fail("unexpected `" + [data[cur.pos]] + "` character after `=`"))
  {
    if cur.pos == |data| then Lexed(None, cur.Fail("expected value after `=`"))
    else
      var v := data[cur.pos];
      var next := cur.(pos := cur.pos + 1);
      if v == '"' then LexString(data, next, cur.pos)
      else if IsBareword(v) then LexToken(data, next, cur.pos)
      else Lexed(None, next.Fail("unexpected `" + [v] + "` character after `=`"))
  }

  /** The key of `parse_key_value`: a quoted string when it starts with a quote, else a bareword. */
  function LexKey(data: string, cur: Cursor, c: char, start: nat): (r: Lexed<Indices>)
    requires start < cur.pos <= |data|
    ensures Advances(data, cur, r) && r.cur.inBlock == cur.inBlock
    ensures r.value.None? ==> r.cur.errors != []
    ensures r.value.Some? ==> r.value.value.start <= r.value.value.end <= r.cur.pos
  {
    if c == '"' then LexString(data, cur, start) else LexToken(data, cur, start)
  }

  /** After a non-empty key `k`: `=`, a non-empty value, and a delimiter. */
  function LexPair(data: string, cur: Cursor, k: Indices): (r: Lexed<Token>)
    requires k.start < k.end <= cur.pos <= |data|
    ensures Advances(data, cur, r) && r.cur.inBlock == cur.inBlock
    ensures r.value.None? ==> r.cur.errors != []
    ensures r.value.Some? ==> r.value.value.KeyValueAttribute? && r.value.value.key == data[k.start..k.end] && r.value.value.value != []
    ensures r.value.Some? ==> Within(r.value.value.value, data) && (r.cur.pos == |data| || Delimits(data[r.cur.pos]))
  {
    var eq := LexEquals(data, cur);
    if eq.errors != cur.errors then Lexed(None, eq)
    else
      var value := LexValue(data, eq);
      match value.value
      case None => Lexed(None, value.cur)
      case Some(v) =>
        if v.start == v.end then Lexed(None, value.cur.Fail("unexpected empty string as value"))
        else
          SliceWithin(data, v.start, v.end);
          Checked(data, value.cur, KeyValueAttribute(data[k.start..k.end], data[v.start..v.end]))
  }

  /** `parse_key_value` after the first character `c` of a key at `start`. */
  function LexKeyValue(data: string, cur: Cursor, c: char, start: nat): (r: Lexed<Token>)
    requires start < cur.pos <= |data|
    ensures Advances(data, cur, r) && r.cur.inBlock == cur.inBlock
    ensures r.value.None? ==> r.cur.errors != []
    ensures r.value.Some? ==> r.value.value.KeyValueAttribute? && r.value.value.key != [] && r.value.value.value != []
    ensures r.value.Some? ==> FromData(r.value.value, data) && (r.cur.pos == |data| || Delimits(data[r.cur.pos]))
  {
    var key := LexKey(data, cur, c, start);
    match key.value
    case None => Lexed(None, key.cur)
    case Some(k) =>
      if k.start == k.end then Lexed(None, key.cur.Fail("unexpected empty string as key"))
      else SliceWithin(data, k.start, k.end); LexPair(data, key.cur, k)
  }

  /** `skip_paren_block`: up to and including the next `)`. */
  function LexComment(data: string, cur: Cursor): (r: Cursor)
    requires cur.pos <= |data|
    ensures cur.pos <= r.pos <= |data| && r.inBlock == cur.inBlock
    ensures r.errors == cur.errors <==> exists k :: cur.pos <= k < |data| && data[k] == ')'
    ensures r.errors == cur.errors ==> 0 < r.pos && data[r.pos - 1] == ')' && forall k :: cur.pos <= k < r.pos - 1 ==> data[k] != ')'
    ensures r.errors != cur.errors ==> r == cur.(pos := |data|).Fail(UnclosedComment)
  {
    var q := Scan(data, cur.pos, NonParens);
    if q < |data| then cur.(pos := q + 1) else cur.(pos := q).Fail(UnclosedComment)
  }

  /** What the two block parsers do: yield, or go on with `next()` from a new state (`return self.next()`). */
  datatype Outcome = Yield(lexed: Lexed<Token>) | Again(resume: Cursor)

  /** What a block parser reports: its yield, or that `next()` goes on from `cur`. */
  function Reported(r: Option<Token>, again: bool, cur: Cursor): Outcome
  {
    if again then Again(cur) else Yield(Lexed(r, cur))
  }

  /** A step moves forward: a yield as `Advances` says, with its token drawn from the string; a resumption without a message. */
  ghost predicate Moves(data: string, cur: Cursor, s: Outcome)
  {
    match s
    case Yield(l) =>
      && Advances(data, cur, l) && (l.value.Some? ==> FromData(l.value.value, data))
      && (l.value.None? ==> l.cur.errors != [] || l.cur.pos == |data|)
    case Again(c) => cur.pos < c.pos <= |data| && c.errors == cur.errors
  }

  /** `parse_in_attribute_block`: the closing brace, a class, a key-value pair, or an error. */
  function LexInBlock(data: string, cur: Cursor): (r: Outcome)
    requires cur.pos <= |data|
    ensures Moves(data, cur, r)
    ensures r.Yield? && cur.pos < |data| ==> cur.pos < r.lexed.cur.pos
    ensures r.Again? <==> cur.pos < |data| && data[cur.pos] == '}'
    ensures r.Again? ==> r.resume == cur.(pos := cur.pos + 1, inBlock := false)
    ensures cur.pos < |data| && data[cur.pos] != '}' && r.lexed.cur.errors == [] ==> r.lexed.cur.inBlock == cur.inBlock
    ensures cur.pos == |data| ==> r == Yield(Lexed(None, cur.Fail(UnclosedBlock)))
    ensures r.Yield? && r.lexed.value.None? ==> r.lexed.cur.errors != []
  {
    if cur.pos == |data| then Yield(Lexed(None, cur.Fail(UnclosedBlock)))
    else
      var p, c := cur.pos, data[cur.pos];
      var next := cur.(pos := p + 1);
      if c == '}' then Again(next.(inBlock := false))
      else if c == '.' || c == '"' || IsLeading(c) then Yield(LexAttribute(data, next, c, p))
      else Yield(Lexed(None, next.Fail("unexpected character `" + [c] + "`")))
  }

  /** An attribute inside `{…}` whose first character `c` at `p` is consumed: `.class`, or `key=value`. */
  function LexAttribute(data: string, cur: Cursor, c: char, p: nat): (r: Lexed<Token>)
    requires p < cur.pos <= |data|
    ensures Advances(data, cur, r) && (r.value.Some? ==> FromData(r.value.value, data))
    ensures r.value.None? ==> r.cur.errors != []
    ensures r.cur.errors == [] ==> r.cur.inBlock == cur.inBlock
  {
    if c == '.' then
      var r := LexClass(data, cur, p);
      if r.value.Some? then SliceWithin(data, p + 1, r.cur.pos); r else r
    else LexKeyValue(data, cur, c, p)
  }

  /** Where a token that starts at `start` stops: after a leading character, at the end of the bareword run. */
  function TokenStop(data: string, start: nat): (q: nat)
    requires start < |data|
    ensures start <= q <= |data|
    ensures q == start <==> !IsLeading(data[start])
    ensures q > start ==> forall k :: start < k < q ==> IsBareword(data[k])
    ensures q > start && q < |data| ==> !IsBareword(data[q])
  {
    if IsLeading(data[start]) then Scan(data, start + 1, Barewords) else start
  }

  /** A quoted token after its opening quote at `p`: only `{`, a separator, `(` or the end may follow it. */
  function LexQuoted(data: string, cur: Cursor, p: nat): (r: Lexed<Token>)
    requires p < cur.pos <= |data|
    ensures Advances(data, cur, r) && (r.value.Some? ==> FromData(r.value.value, data))
    ensures r.value.None? ==> r.cur.errors != [] || r.cur.pos == |data|
    ensures r.value.Some? ==> r.value.value.LangToken? && (r.cur.pos == |data| || data[r.cur.pos] == '{' || Delimits(data[r.cur.pos]))
  {
    var s := LexString(data, cur, p);
    match s.value
    case None => Lexed(None, s.cur)
    case Some(i) =>
      var q := s.cur.pos;
      if q < |data| && data[q] != '{' && !IsSeparator(data[q]) && data[q] != '(' then
        Lexed(None, s.cur.Fail("expected ` `, `{` or `,` after `\"`, found `" + [data[q]] + "`"))
      else SliceWithin(data, i.start, i.end); Lexed(Some(LangToken(data[i.start..i.end])), s.cur)
  }

  /** After a `(` at `p` in a token that starts at `start`: the comment is skipped, then the token before it, or `next()`. */
  function LexAfterComment(data: string, cur: Cursor, start: nat, p: nat): (r: Outcome)
    requires start <= p < cur.pos <= |data|
    ensures Moves(data, cur, r) && (r.Yield? ==> cur.pos <= r.lexed.cur.pos)
  {
    var after := LexComment(data, cur);
    if after.errors != cur.errors then Yield(Lexed(None, after))
    else if p != start then SliceWithin(data, start, p); Yield(Lexed(Some(LangToken(data[start..p])), after))
    else Again(after)
  }

  /**
   * `parse_outside_attribute_block` at `cur.pos`: a bareword or a quoted string, ended by a
   * separator, a comment or the end; or the opening of a block. The source's loop goes on
   * over a leading character and then bareword characters, none of which it treats
   * otherwise, so the token's run is taken first and the character that stops it decides.
   */
  function LexOutside(data: string, cur: Cursor): (r: Outcome)
    requires cur.pos < |data|
    ensures Moves(data, cur, r)
    ensures r.Yield? ==> cur.pos < r.lexed.cur.pos
  {
    LexStopped(data, cur.(pos := TokenStop(data, cur.pos)), cur.pos)
  }

  /** Where the run of a token that starts at `start` stops, at `cur.pos`: the end of the string ends the token. */
  function LexStopped(data: string, cur: Cursor, start: nat): (r: Outcome)
    requires start < |data| && cur.pos == TokenStop(data, start)
    ensures Moves(data, cur, r)
    ensures r.Yield? ==> start < r.lexed.cur.pos
  {
    var p := cur.pos;
    if p == |data| then
      SliceWithin(data, start, |data|);
      Yield(Lexed(Some(LangToken(data[start..|data|])), cur))
    else LexDelimiter(data, cur.(pos := p + 1), start, p)
  }

  /** The character at `p` that stopped a token from `start`, consumed: `cur.pos` is just after it. */
  function LexDelimiter(data: string, cur: Cursor, start: nat, p: nat): (r: Outcome)
    requires start <= p && cur.pos == p + 1 <= |data|
    ensures Moves(data, cur.(pos := p), r)
  {
    var c := data[p];
    if c == '"' then LexQuoteAfter(data, cur, start, p)
    else if c == '{' then Again(cur.(inBlock := true))
    else if IsSeparator(c) then
      if p != start then SliceWithin(data, start, p); Yield(Lexed(Some(LangToken(data[start..p])), cur))
      else Again(cur)
    else if c == '(' then LexAfterComment(data, cur, start, p)
    else Yield(Lexed(None, cur.Fail("unexpected character `" + [c] + "`")))
  }

  /** A quote at `p`: it may only open a token, which is then the quoted string. */
  function LexQuoteAfter(data: string, cur: Cursor, start: nat, p: nat): (r: Outcome)
    requires start <= p < cur.pos <= |data|
    ensures Moves(data, cur, r) && r.Yield?
  {
    if p != start then Yield(Lexed(None, cur.Fail("expected ` `, `{` or `,` found `\"`")))
    else Yield(LexQuoted(data, cur, p))
  }

  /** `Iterator::next`: nothing after an error; past the separators, a token inside or outside a block. */
  function LexNext(data: string, cur: Cursor): (r: Lexed<Token>)
    requires cur.pos <= |data|
    ensures Advances(data, cur, r)
    ensures cur.errors != [] ==> r == Lexed(None, cur)
    ensures r.value.Some? ==> cur.pos < r.cur.pos && FromData(r.value.value, data)
    ensures r.value.None? ==> r.cur.errors != [] || r.cur.pos == |data|
    ensures cur.errors == [] && Scan(data, cur.pos, Separators) == |data| ==>
      r == Lexed(None, if cur.inBlock then cur.(pos := |data|).Fail(UnclosedBlock) else cur.(pos := |data|))
    decreases |data| - cur.pos, 1
  {
    if cur.errors != [] then Lexed(None, cur)
    else
      var q := Scan(data, cur.pos, Separators);
      var at := cur.(pos := q);
      if q == |data| then Lexed(None, if cur.inBlock then at.Fail(UnclosedBlock) else at)
      else Resume(data, at, if cur.inBlock then LexInBlock(data, at) else LexOutside(data, at))
  }

  /** A step carried through: its yield, or `next()` from where it resumes. */
  function Resume(data: string, cur: Cursor, s: Outcome): (r: Lexed<Token>)
    requires cur.pos <= |data| && Moves(data, cur, s)
    ensures Advances(data, cur, r)
    ensures r.value.Some? ==> FromData(r.value.value, data)
    ensures r.value.None? ==> r.cur.errors != [] || r.cur.pos == |data|
    ensures s.Yield? && cur.pos < s.lexed.cur.pos ==> cur.pos < r.cur.pos
    ensures s.Again? ==> cur.pos < r.cur.pos
    decreases |data| - cur.pos, 0
  {
    match s
    case Yield(l) => l
    case Again(c) => LexNext(data, c)
  }

  /** The tokens the iterator yields from `cur` on, and its state once it yields nothing. */
  datatype TokenRun = TokenRun(tokens: seq<Token>, end: Cursor)

  /** The iterator drained: at most one message is ever recorded, and every token is drawn from the string. */
  function RunFrom(data: string, cur: Cursor): (r: TokenRun)
    requires cur.pos <= |data|
    ensures |r.tokens| <= |data| - cur.pos
    ensures forall k :: 0 <= k < |r.tokens| ==> FromData(r.tokens[k], data)
    ensures cur.errors != [] ==> r == TokenRun([], cur)
    ensures cur.errors == [] ==> |r.end.errors| <= 1
    decreases |data| - cur.pos
  {
    var n := LexNext(data, cur);
    match n.value
    case None => TokenRun([], n.cur)
    case Some(t) =>
      var rest := RunFrom(data, n.cur);
      TokenRun([t] + rest.tokens, rest.end)
  }

  /** Everything `TagIterator::new(s)` yields, and the messages it records. */
  function Tokens(s: string): TokenRun
  {
    RunFrom(s, Cursor(0, false, []))
  }

  /**
   * `TagIterator`: `pos` is the position of the `Peekable<CharIndices>` cursor, and
   * `errors` is what the shared `ExtraInfo` has collected.
   */
  class TagIterator {
    const data: string
    var pos: nat
    var inAttributeBlock: bool
    var isError: bool
    var errors: seq<string>

    /** The cursor is within the string, and the error flag is set exactly when a message was recorded. */
    predicate Valid()
      reads this
    {
      pos <= |data| && (isError <==> errors != [])
    }

    constructor (data: string)
      ensures Valid() && this.data == data && pos == 0
      ensures !inAttributeBlock && !isError && errors == []
    {
      this.data := data;
      pos := 0;
      inAttributeBlock := false;
      isError := false;
      errors := [];
    }

    method EmitError(msg: string)
      requires pos <= |data|
      modifies this
      ensures Valid() && isError && errors == old(errors) + [Invalid(msg)]
      ensures pos == old(pos) && inAttributeBlock == old(inAttributeBlock)
      ensures Cursor(pos, inAttributeBlock, errors) == Cursor(old(pos), old(inAttributeBlock), old(errors)).Fail(msg)
    {
      errors := errors + [Invalid(msg)];
      isError := true;
    }

    /** Skip spaces, commas and tabs; the position of the next other character, if any. */
    method SkipSeparators() returns (r: Option<nat>)
      requires Valid()
      modifies this
      ensures Valid() && errors == old(errors) && inAttributeBlock == old(inAttributeBlock)
      ensures pos == Scan(data, old(pos), Separators) && r == (if pos < |data| then Some(pos) else None)
    {
      while pos < |data|
        invariant old(pos) <= pos <= |data|
        invariant errors == old(errors) && isError == old(isError) && inAttributeBlock == old(inAttributeBlock)
        invariant forall k :: old(pos) <= k < pos ==> IsSeparator(data[k])
        invariant Scan(data, old(pos), Separators) == Scan(data, pos, Separators)
        decreases |data| - pos
      {
        if !IsSeparator(data[pos]) {
          return Some(pos);
        }
        pos := pos + 1;
      }
      return None;
    }

    /** After an opening quote at `start`: the text up to the closing quote, or an error when there is none. */
    method ParseString(start: nat) returns (r: Option<Indices>)
      requires Valid() && !isError
      modifies this
      ensures Valid() && Lexed(r, Cursor(pos, inAttributeBlock, errors)) == LexString(data, Cursor(old(pos), old(inAttributeBlock), old(errors)), start)
    {
      while pos < |data|
        invariant old(pos) <= pos <= |data|
        invariant errors == old(errors) && isError == old(isError) && inAttributeBlock == old(inAttributeBlock)
        invariant forall k :: old(pos) <= k < pos ==> data[k] != '"'
        invariant Scan(data, old(pos), NonQuotes) == Scan(data, pos, NonQuotes)
        decreases |data| - pos
      {
        var p := pos;
        pos := pos + 1;
        if data[p] == '"' {
          return Some(Indices(start + 1, p));
        }
      }
      EmitError(UnclosedQuote);
      return None;
    }

    /** A bareword from `start` up to the first character that cannot be in one; the end of the string is an error. */
    method ParseToken(start: nat) returns (r: Option<Indices>)
      requires Valid() && !isError
      modifies this
      ensures Valid() && Lexed(r, Cursor(pos, inAttributeBlock, errors)) == LexToken(data, Cursor(old(pos), old(inAttributeBlock), old(errors)), start)
    {
      while pos < |data|
        invariant old(pos) <= pos <= |data|
        invariant errors == old(errors) && isError == old(isError) && inAttributeBlock == old(inAttributeBlock)
        invariant forall k :: old(pos) <= k < pos ==> IsBareword(data[k])
        invariant Scan(data, old(pos), Barewords) == Scan(data, pos, Barewords)
        decreases |data| - pos
      {
        if !IsBareword(data[pos]) {
          return Some(Indices(start, pos));
        }
        pos := pos + 1;
      }
      EmitError(UnexpectedEnd);
      return None;
    }

    /** A token must be followed by `}`, a separator, `(` or the end of the string. */
    method CheckAfterToken() returns (ok: bool)
      requires Valid() && !isError
      modifies this
      ensures Valid() && ok == (errors == old(errors))
      ensures Cursor(pos, inAttributeBlock, errors) == AfterToken(data, Cursor(old(pos), old(inAttributeBlock), old(errors)))
    {
      if pos < |data| {
        var c := data[pos];
        if c == '}' || IsSeparator(c) || c == '(' {
          return true;
        }
        EmitError("unexpected `" + [c] + "` character");
        return false;
      }
      return true;
    }

    /** After a `.` at `start`: a class name made of bareword characters. */
    method ParseClass(start: nat) returns (r: Option<Token>)
      requires Valid() && !isError && start < pos
      modifies this
      ensures Valid() && Lexed(r, Cursor(pos, inAttributeBlock, errors)) == LexClass(data, Cursor(old(pos), old(inAttributeBlock), old(errors)), start)
    {
      while pos < |data|
        invariant old(pos) <= pos <= |data|
        invariant errors == old(errors) && isError == old(isError) && inAttributeBlock == old(inAttributeBlock)
        invariant Scan(data, old(pos), Barewords) == Scan(data, pos, Barewords)
        decreases |data| - pos
      {
        var c := data[pos];
        if IsBareword(c) {
          pos := pos + 1;
        } else {
          var name := data[start + 1..pos];
          if name == [] {
            EmitError("unexpected `" + [c] + "` character after `.`");
            return None;
          }
          var ok := CheckAfterToken();
          return if ok then Some(ClassAttribute(name)) else None;
        }
      }
      var name := data[start + 1..pos];
      if name == [] {
        EmitError("missing character after `.`");
        return None;
      }
      var ok := CheckAfterToken();
      return if ok then Some(ClassAttribute(name)) else None;
    }

    /** After the first character `c` of a key at `start`: `key=value`, each a bareword or a quoted string. */
    method ParseKeyValue(c: char, start: nat) returns (r: Option<Token>)
      requires Valid() && !isError && start < pos
      modifies this
      ensures Valid() && Lexed(r, Cursor(pos, inAttributeBlock, errors)) == LexKeyValue(data, Cursor(old(pos), old(inAttributeBlock), old(errors)), c, start)
    {
      var key;
      if c == '"' {
        key := ParseString(start);
      } else {
        key := ParseToken(start);
      }
      if key.None? {
        return None;
      }
      var keyIndices := key.value;
      if keyIndices.start == keyIndices.end {
        EmitError("unexpected empty string as key");
        return None;
      }
      var eq := ExpectEquals();
      if !eq {
        return None;
      }
      var value := ParseValue();
      if value.None? {
        return None;
      }
      var valueIndices := value.value;
      if valueIndices.start == valueIndices.end {
        EmitError("unexpected empty string as value");
        return None;
      }
      assert keyIndices.start <= keyIndices.end <= |data| && valueIndices.start <= valueIndices.end <= |data|;
      var ok := CheckAfterToken();
      if !ok {
        return None;
      }
      SliceWithin(data, keyIndices.start, keyIndices.end);
      SliceWithin(data, valueIndices.start, valueIndices.end);
      return Some(KeyValueAttribute(data[keyIndices.start..keyIndices.end], data[valueIndices.start..valueIndices.end]));
    }

    /** After a key: the `=` that must follow it. */
    method ExpectEquals() returns (ok: bool)
      requires Valid() && !isError
      modifies this
      ensures Valid() && ok == (errors == old(errors))
      ensures Cursor(pos, inAttributeBlock, errors) == LexEquals(data, Cursor(old(pos), old(inAttributeBlock), old(errors)))
    {
      if pos == |data| {
        EmitError(UnexpectedEnd);
        return false;
      }
      var eq := data[pos];
      pos := pos + 1;
      if eq != '=' {
        EmitError("expected `=`, found `" + [eq] + "`");
        return false;
      }
      return true;
    }

    /** After `=`: a quoted string or a bareword. */
    method ParseValue() returns (r: Option<Indices>)
      requires Valid() && !isError
      modifies this
      ensures Valid() && Lexed(r, Cursor(pos, inAttributeBlock, errors)) == LexValue(data, Cursor(old(pos), old(inAttributeBlock), old(errors)))
    {
      if pos == |data| {
        EmitError("expected value after `=`");
        return None;
      }
      var p, v := pos, data[pos];
      pos := pos + 1;
      if v == '"' {
        r := ParseString(p);
      } else if IsBareword(v) {
        r := ParseToken(p);
      } else {
        EmitError("unexpected `" + [v] + "` character after `=`");
        r := None;
      }
    }

    /** Skip a comment up to and including `)`; false, with an error, when it is not closed. */
    method SkipParenBlock() returns (ok: bool)
      requires Valid() && !isError
      modifies this
      ensures Valid() && ok == (errors == old(errors))
      ensures Cursor(pos, inAttributeBlock, errors) == LexComment(data, Cursor(old(pos), old(inAttributeBlock), old(errors)))
    {
      while pos < |data|
        invariant old(pos) <= pos <= |data|
        invariant errors == old(errors) && isError == old(isError) && inAttributeBlock == old(inAttributeBlock)
        invariant forall k :: old(pos) <= k < pos ==> data[k] != ')'
        invariant Scan(data, old(pos), NonParens) == Scan(data, pos, NonParens)
        decreases |data| - pos
      {
        var c := data[pos];
        pos := pos + 1;
        if c == ')' {
          return true;
        }
      }
      EmitError(UnclosedComment);
      return false;
    }

    /** Inside `{…}`: a class, a key-value pair, or the closing brace after which `next()` goes on. */
    method ParseInAttributeBlock() returns (r: Option<Token>, again: bool)
      requires Valid() && !isError
      modifies this
      ensures Valid() && (again ==> r.None?)
      ensures Reported(r, again, Cursor(pos, inAttributeBlock, errors)) == LexInBlock(data, Cursor(old(pos), old(inAttributeBlock), old(errors)))
    {
      again := false;
      ghost var here := Cursor(pos, inAttributeBlock, errors);
      if pos == |data| {
        assert LexInBlock(data, here) == Yield(Lexed(None, here.Fail(UnclosedBlock)));
        EmitError(UnclosedBlock);
        r := None;
      } else {
        var p, c := pos, data[pos];
        pos := pos + 1;
        ghost var next := here.(pos := pos);
        if c == '}' {
          assert LexInBlock(data, here) == Again(next.(inBlock := false));
          inAttributeBlock := false;
          r, again := None, true;
        } else if c == '.' || c == '"' || IsLeading(c) {
          assert LexInBlock(data, here) == Yield(LexAttribute(data, next, c, p));
          r := ParseAttribute(c, p);
        } else {
          assert LexInBlock(data, here) == Yield(Lexed(None, next.Fail("unexpected character `" + [c] + "`")));
          EmitError("unexpected character `" + [c] + "`");
          r := None;
        }
      }
    }

    /** An attribute after its first character `c` at `p`: a class after `.`, else a key-value pair. */
    method ParseAttribute(c: char, p: nat) returns (r: Option<Token>)
      requires Valid() && !isError && p < pos
      modifies this
      ensures Valid()
      ensures Lexed(r, Cursor(pos, inAttributeBlock, errors)) == LexAttribute(data, Cursor(old(pos), old(inAttributeBlock), old(errors)), c, p)
    {
      if c == '.' {
        r := ParseClass(p);
      } else {
        r := ParseKeyValue(c, p);
      }
    }

    /** Outside a block: a bareword or quoted token, a comment, or the opening of a block after which `next()` goes on. */
    method ParseOutsideAttributeBlock(start: nat) returns (r: Option<Token>, again: bool)
      requires Valid() && !isError && start == pos < |data|
      modifies this
      ensures Valid() && (again ==> r.None?)
      ensures Reported(r, again, Cursor(pos, inAttributeBlock, errors)) == LexOutside(data, Cursor(old(pos), old(inAttributeBlock), old(errors)))
    {
      // The characters a token may go on with are none of those handled below.
      while pos < |data| && ((pos == start && IsLeading(data[pos])) || (pos != start && IsBareword(data[pos])))
        invariant start <= pos <= |data| && !isError && errors == old(errors) && inAttributeBlock == old(inAttributeBlock)
        invariant pos > start ==> IsLeading(data[start]) && Scan(data, start + 1, Barewords) == Scan(data, pos, Barewords)
        decreases |data| - pos
      {
        pos := pos + 1;
      }
      assert pos == TokenStop(data, start);
      r, again := ParseStopped(start);
    }

    /** The character that stops the run of a token that starts at `start` decides; the end of the string ends the token. */
    method ParseStopped(start: nat) returns (r: Option<Token>, again: bool)
      requires Valid() && !isError && start < |data| && pos == TokenStop(data, start)
      modifies this
      ensures Valid() && (again ==> r.None?)
      ensures Reported(r, again, Cursor(pos, inAttributeBlock, errors)) == LexStopped(data, Cursor(old(pos), old(inAttributeBlock), old(errors)), start)
    {
      ghost var here := Cursor(pos, inAttributeBlock, errors);
      if pos == |data| {
        assert LexStopped(data, here, start) == Yield(Lexed(Some(LangToken(data[start..|data|])), here));
        r := TokenAtEnd(start);
        again := false;
      } else {
        assert LexStopped(data, here, start) == LexDelimiter(data, here.(pos := pos + 1), start, pos);
        r, again := ParseDelimiter(start);
      }
    }

    /** A token that runs to the end of the string. */
    method TokenAtEnd(start: nat) returns (r: Option<Token>)
      requires start < pos == |data|
      ensures r == Some(LangToken(data[start..|data|]))
    {
      var token := data[start..];
      assert token == data[start..|data|];
      if token == [] {
        r := None;
      } else {
        r := Some(LangToken(token));
      }
    }

    /** The character at `p` that stopped a token from `start`, already consumed. */
    method ParseDelimiter(start: nat) returns (r: Option<Token>, again: bool)
      requires Valid() && !isError && start <= pos < |data|
      modifies this
      ensures Valid() && (again ==> r.None?)
      ensures Reported(r, again, Cursor(pos, inAttributeBlock, errors)) == LexDelimiter(data, Cursor(old(pos) + 1, old(inAttributeBlock), old(errors)), start, old(pos))
    {
      var p, c := pos, data[pos];
      pos := pos + 1;
      ghost var next := Cursor(pos, inAttributeBlock, errors);
      again := false;
      if c == '"' {
        assert LexDelimiter(data, next, start, p) == LexQuoteAfter(data, next, start, p);
        r := ParseQuoteAfter(start, p);
      } else if c == '{' {
        assert LexDelimiter(data, next, start, p) == Again(next.(inBlock := true));
        inAttributeBlock := true;
        r, again := None, true;
      } else if IsSeparator(c) {
        if p != start {
          assert LexDelimiter(data, next, start, p) == Yield(Lexed(Some(LangToken(data[start..p])), next));
          r := Some(LangToken(data[start..p]));
        } else {
          assert LexDelimiter(data, next, start, p) == Again(next);
          r, again := None, true;
        }
      } else if c == '(' {
        assert LexDelimiter(data, next, start, p) == LexAfterComment(data, next, start, p);
        r, again := ParseAfterComment(start, p);
      } else {
        assert LexDelimiter(data, next, start, p) == Yield(Lexed(None, next.Fail("unexpected character `" + [c] + "`")));
        EmitError("unexpected character `" + [c] + "`");
        r := None;
      }
    }

    /** A quote at `p`, already consumed: an error unless it opens the token. */
    method ParseQuoteAfter(start: nat, p: nat) returns (r: Option<Token>)
      requires Valid() && !isError && start <= p < pos
      modifies this
      ensures Valid()
      ensures Yield(Lexed(r, Cursor(pos, inAttributeBlock, errors))) == LexQuoteAfter(data, Cursor(old(pos), old(inAttributeBlock), old(errors)), start, p)
    {
      if p != start {
        EmitError("expected ` `, `{` or `,` found `\"`");
        return None;
      }
      r := ParseQuoted(p);
    }

    /** The comment of `parse_outside_attribute_block` after a `(` at `p`, in a token that starts at `start`. */
    method ParseAfterComment(start: nat, p: nat) returns (r: Option<Token>, again: bool)
      requires Valid() && !isError && start <= p < pos
      modifies this
      ensures Valid() && (again ==> r.None?)
      ensures Reported(r, again, Cursor(pos, inAttributeBlock, errors)) == LexAfterComment(data, Cursor(old(pos), old(inAttributeBlock), old(errors)), start, p)
    {
      var ok := SkipParenBlock();
      if !ok {
        return None, false;
      }
      if p != start {
        return Some(LangToken(data[start..p])), false;
      }
      return None, true;
    }

    /** A quoted token of `parse_outside_attribute_block`, after its opening quote at `p`. */
    method ParseQuoted(p: nat) returns (r: Option<Token>)
      requires Valid() && !isError && p < pos
      modifies this
      ensures Valid()
      ensures Lexed(r, Cursor(pos, inAttributeBlock, errors)) == LexQuoted(data, Cursor(old(pos), old(inAttributeBlock), old(errors)), p)
    {
      var indices := ParseString(p);
      if indices.None? {
        return None;
      }
      if pos < |data| && data[pos] != '{' && !IsSeparator(data[pos]) && data[pos] != '(' {
        EmitError("expected ` `, `{` or `,` after `\"`, found `" + [data[pos]] + "`");
        return None;
      }
      var i := indices.value;
      return Some(LangToken(data[i.start..i.end]));
    }

    /**
     * `Iterator::next`: nothing once an error was emitted, and an error for a block left open.
     * The block parsers end in `return self.next()`, a tail call: here they answer `again`
     * and the loop goes on.
     */
    method Next() returns (r: Option<Token>)
      requires Valid()
      modifies this
      ensures Valid() && Lexed(r, Cursor(pos, inAttributeBlock, errors)) == LexNext(data, Cursor(old(pos), old(inAttributeBlock), old(errors)))
    {
      while true
        invariant Valid() && LexNext(data, Cursor(old(pos), old(inAttributeBlock), old(errors))) == LexNext(data, Cursor(pos, inAttributeBlock, errors))
        decreases |data| - pos
      {
        if isError {
          return None;
        }
        var start := SkipSeparators();
        if start.None? {
          if inAttributeBlock {
            EmitError(UnclosedBlock);
          }
          return None;
        }
        var again;
        if inAttributeBlock {
          r, again := ParseInAttributeBlock();
        } else {
          r, again := ParseOutsideAttributeBlock(start.value);
        }
        if !again {
          return;
        }
      }
    }
  }

  // ----- numbers and editions -----

  /** The digits a `+` sign may precede. */
  function Unsigned(s: string): string
  {
    if s != [] && s[0] == '+' then s[1..] else s
  }

  /** `str::parse` for an unsigned integer type whose values are below `bound`: an optional `+`, then digits. */
  predicate ParsesBelow(s: string, bound: nat)
  {
    var digits := Unsigned(s);
    digits != [] && AllDigits(digits) && DigitsValue(digits) < bound
  }

  const U16Bound: nat := 0x1_0000
  const U32Bound: nat := 0x1_0000_0000

  datatype Edition = Edition

  /** `Edition::from_str`: `future` or any `u16`. */
  predicate IsEdition(s: string)
  {
    s == "future" || ParsesBelow(s, U16Bound)
  }

  /** Up to four digits always name an edition, and a string holding a character other than a digit or a leading `+` never does, `future` aside. */
  lemma EditionDigits(s: string)
    ensures AllDigits(s) && 0 < |s| <= 4 ==> IsEdition(s)
    ensures s != "future" && (exists k :: 0 <= k < |s| && !IsAsciiDigit(s[k]) && !(k == 0 && s[k] == '+')) ==> !IsEdition(s)
  {
    if AllDigits(s) && 0 < |s| <= 4 {
      DigitsValueBound(s);
      assert Pow10(|s|) <= Pow10(4) by {
        if |s| < 4 {
          Pow10Monotone(|s|, 4);
        }
      }
    }
    if s != "future" && exists k :: 0 <= k < |s| && !IsAsciiDigit(s[k]) && !(k == 0 && s[k] == '+') {
      var k :| 0 <= k < |s| && !IsAsciiDigit(s[k]) && !(k == 0 && s[k] == '+');
      var digits := Unsigned(s);
      if s != [] && s[0] == '+' {
        assert digits[k - 1] == s[k];
      } else {
        assert digits[k] == s[k];
      }
    }
  }

  // ----- classification -----

  datatype Ignore = IgnoreAll | IgnoreNone | IgnoreSome(targets: seq<string>)

  datatype LangString = LangString(
    original: string,
    shouldPanic: bool,
    noRun: bool,
    ignore: Ignore,
    rust: bool,
    testHarness: bool,
    compileFail: bool,
    standaloneCrate: bool,
    errorCodes: seq<string>,
    edition: Option<Edition>,
    addedClasses: seq<string>,
    unknown: seq<string>)

  /** `LangString::default` with the original string. */
  function Default(original: string): LangString
  {
    LangString(original, false, false, IgnoreNone, true, false, false, false, [], None, [], [])
  }

  /** The state of the token loop in `LangString::parse`. */
  datatype Parsing = Parsing(data: LangString, seenRust: bool, seenOther: bool, seenCustom: bool, ignores: seq<string>)

  function Start(original: string): Parsing
  {
    Parsing(Default(original), false, false, false, [])
  }

  /** What a word means to `LangString::parse`, in the order its tests are made. */
  datatype Tag =
    | ShouldPanic
    | NoRun
    | IgnoreTag
    | IgnoreTarget(target: string)
    | RustTag
    | Custom
    | TestHarness
    | CompileFail
    | StandaloneCrate
    | EditionTag(known: bool)
    | ErrorCode
    | NotACode
    | Unknown
  {
    /** Tags that count towards Rust only while no other tag was seen. */
    predicate PlainRust()
    {
      ShouldPanic? || NoRun? || IgnoreTag? || IgnoreTarget?
    }

    /** Tags that keep the block Rust even after another tag. */
    predicate StickyRust()
    {
      TestHarness? || CompileFail? || StandaloneCrate? || ErrorCode?
    }

    /** Tags that make the block not Rust unless a Rust tag outweighs them. */
    predicate Other()
    {
      NotACode? || Unknown?
    }
  }

  /** The word's meaning; an `E` with four more bytes is a code only when they parse as a `u32`. */
  function TagOf(x: string): (r: Tag)
    ensures r.ShouldPanic? ==> x == "should_panic"
    ensures r.NoRun? ==> x == "no_run"
    ensures r.IgnoreTag? ==> x == "ignore"
    ensures r.RustTag? ==> x == "rust"
    ensures r.Custom? ==> x == "custom"
    ensures r.TestHarness? ==> x == "test_harness"
    ensures r.CompileFail? ==> x == "compile_fail"
    ensures r.StandaloneCrate? ==> x == "standalone_crate"
    ensures r.IgnoreTarget? ==> x == "ignore-" + r.target
    ensures r.EditionTag? ==> StartsWith(x, "edition") && (r.known <==> IsEdition(x[7..]))
    ensures r.ErrorCode? || r.NotACode? ==> 1 <= |x| && x[0] == 'E' && Utf8Len(x[1..]) == 4
    ensures r.ErrorCode? ==> ParsesBelow(x[1..], U32Bound)
    ensures r.NotACode? ==> !ParsesBelow(x[1..], U32Bound)
    ensures r.Unknown? ==>
      && x != "should_panic" && x != "no_run" && x != "ignore" && x != "rust" && x != "custom"
      && x != "test_harness" && x != "compile_fail" && x != "standalone_crate"
      && !StartsWith(x, "ignore-") && !StartsWith(x, "edition") && !(StartsWith(x, "E") && Utf8Len(x[1..]) == 4)
  {
    if x == "should_panic" then ShouldPanic
    else if x == "no_run" then NoRun
    else if x == "ignore" then IgnoreTag
    else if StartsWith(x, "ignore-") then IgnoreTarget(x[7..])
    else if x == "rust" then RustTag
    else if x == "custom" then Custom
    else if x == "test_harness" then TestHarness
    else if x == "compile_fail" then CompileFail
    else if x == "standalone_crate" then StandaloneCrate
    else if StartsWith(x, "edition") then EditionTag(IsEdition(x[7..]))
    else if StartsWith(x, "E") && Utf8Len(x[1..]) == 4 then
      if ParsesBelow(x[1..], U32Bound) then ErrorCode else NotACode
    else Unknown
  }

  predicate IsPlainRustTag(x: string)
  {
    TagOf(x).PlainRust()
  }

  predicate IsOtherTag(x: string)
  {
    TagOf(x).Other()
  }

  /** Other tags recorded in `unknown`: all but the misshapen codes. */
  predicate IsUnknown(x: string)
  {
    TagOf(x).Unknown?
  }

  /** One token of the loop in `LangString::parse`. */
  function Step(st: Parsing, t: Token): Parsing
  {
    match t
    case LangToken(x) => StepTag(st, x, TagOf(x))
    case KeyValueAttribute(k, v) => if k == "class" then AddClass(st, v) else st
    case ClassAttribute(c) => AddClass(st, c)
  }

  /** A class from `.c` or `class=c` is added to the block's classes. */
  function AddClass(st: Parsing, c: string): Parsing
  {
    var d := st.data;
    var data := LangString(d.original, d.shouldPanic, d.noRun, d.ignore, d.rust, d.testHarness, d.compileFail,
      d.standaloneCrate, d.errorCodes, d.edition, d.addedClasses + [c], d.unknown);
    Parsing(data, st.seenRust, st.seenOther, st.seenCustom, st.ignores)
  }

  /**
   * A word `x` and its meaning, field by field: the flag a tag names is set, `ignore-…`
   * collects its target, an edition tag replaces the edition, an error code is appended,
   * and an unknown word is recorded.
   */
  function StepTag(st: Parsing, x: string, tag: Tag): Parsing
  {
    var d := st.data;
    Parsing(
      data := LangString(
        original := d.original,
        shouldPanic := d.shouldPanic || tag.ShouldPanic?,
        noRun := d.noRun || tag.NoRun? || tag.CompileFail?,
        ignore := if tag.IgnoreTag? then IgnoreAll else d.ignore,
        rust := d.rust || tag.RustTag?,
        testHarness := d.testHarness || tag.TestHarness?,
        compileFail := d.compileFail || tag.CompileFail?,
        standaloneCrate := d.standaloneCrate || tag.StandaloneCrate?,
        errorCodes := d.errorCodes + (if tag.ErrorCode? then [x] else []),
        edition := if tag.EditionTag? then (if tag.known then Some(Edition) else None) else d.edition,
        addedClasses := d.addedClasses,
        unknown := d.unknown + (if tag.Unknown? then [x] else [])),
      seenRust :=
        if tag.PlainRust() then !st.seenOther
        else if tag.StickyRust() then !st.seenOther || st.seenRust
        else st.seenRust || tag.RustTag?,
      seenOther := st.seenOther || tag.Other(),
      seenCustom := st.seenCustom || tag.Custom?,
      ignores := st.ignores + (if tag.IgnoreTarget? then [tag.target] else []))
  }

  /** The loop over a token sequence. */
  function Fold(st: Parsing, tokens: seq<Token>): Parsing
  {
    if tokens == [] then st else Step(Fold(st, tokens[..|tokens| - 1]), tokens[|tokens| - 1])
  }

  /** After the loop: `ignore-…` overrides `ignore`, and the flags decide Rust. */
  function Finish(st: Parsing, isError: bool): LangString
  {
    var d := st.data;
    LangString(
      original := d.original,
      shouldPanic := d.shouldPanic,
      noRun := d.noRun,
      ignore := if st.ignores != [] then IgnoreSome(st.ignores) else d.ignore,
      rust := d.rust && !st.seenCustom && (!st.seenOther || st.seenRust) && !isError,
      testHarness := d.testHarness,
      compileFail := d.compileFail,
      standaloneCrate := d.standaloneCrate,
      errorCodes := d.errorCodes,
      edition := d.edition,
      addedClasses := d.addedClasses,
      unknown := d.unknown)
  }

  /** What `LangString::parse` computes from the tokens of `original` and the iterator's error flag. */
  function Classified(original: string, tokens: seq<Token>, isError: bool): LangString
  {
    Finish(Fold(Start(original), tokens), isError)
  }

  /** `LangString::parse`: the classification of the tokens `TagIterator` yields, and the messages it recorded. */
  method Parse(s: string) returns (ls: LangString, errors: seq<string>)
    ensures ls == Classified(s, Tokens(s).tokens, Tokens(s).end.errors != []) && errors == Tokens(s).end.errors
    ensures s == [] ==> ls.rust && errors == []
    ensures errors != [] ==> !ls.rust
  {
    var iter := new TagIterator(s);
    var st := Start(s);
    ghost var tokens: seq<Token> := [];
    assert Joined([], RunFrom(s, Cursor(0, false, []))) == Tokens(s);
    while true
      invariant iter.Valid() && iter.data == s && st == Fold(Start(s), tokens)
      invariant Tokens(s) == Joined(tokens, RunFrom(s, Cursor(iter.pos, iter.inAttributeBlock, iter.errors)))
      decreases |s| - iter.pos
    {
      ghost var before := Cursor(iter.pos, iter.inAttributeBlock, iter.errors);
      var t := iter.Next();
      ghost var after := Cursor(iter.pos, iter.inAttributeBlock, iter.errors);
      if t.None? {
        RunEnds(s, before, after);
        assert tokens + [] == tokens;
        break;
      }
      RunGoesOn(s, before, t.value, after);
      JoinedSnoc(tokens, t.value, RunFrom(s, after));
      FoldSnoc(Start(s), tokens, t.value);
      st := Step(st, t.value);
      tokens := tokens + [t.value];
    }
    ls := Finish(st, iter.isError);
    errors := iter.errors;
    if s == [] {
      EmptyTokens();
    }
  }

  /** The tokens yielded so far, then a run. */
  function Joined(tokens: seq<Token>, run: TokenRun): TokenRun
  {
    TokenRun(tokens + run.tokens, run.end)
  }

  /** A token moved from the run onto the tokens so far. */
  lemma JoinedSnoc(tokens: seq<Token>, t: Token, rest: TokenRun)
    ensures Joined(tokens, TokenRun([t] + rest.tokens, rest.end)) == Joined(tokens + [t], rest)
  {
    assert tokens + ([t] + rest.tokens) == (tokens + [t]) + rest.tokens;
  }

  /** When `next()` yields nothing, the run ends where it stopped. */
  lemma RunEnds(data: string, before: Cursor, after: Cursor)
    requires before.pos <= |data| && LexNext(data, before) == Lexed(None, after)
    ensures RunFrom(data, before) == TokenRun([], after)
  {
  }

  /** When `next()` yields a token, the run is that token and the run from where it stopped. */
  lemma RunGoesOn(data: string, before: Cursor, t: Token, after: Cursor)
    requires before.pos <= |data| && LexNext(data, before) == Lexed(Some(t), after)
    ensures RunFrom(data, before) == TokenRun([t] + RunFrom(data, after).tokens, RunFrom(data, after).end)
  {
  }

  /** The loop's state after one more token. */
  lemma FoldSnoc(st: Parsing, tokens: seq<Token>, t: Token)
    ensures Fold(st, tokens + [t]) == Step(Fold(st, tokens), t)
  {
    assert (tokens + [t])[..|tokens|] == tokens;
  }

  /** The empty string yields nothing and records nothing. */
  lemma EmptyTokens()
    ensures Tokens([]) == TokenRun([], Cursor(0, false, []))
  {
    assert LexNext([], Cursor(0, false, [])) == Lexed(None, Cursor(0, false, []));
  }

  /** `is_rust`: the messages, or whether the block is Rust. */
  datatype RustCheck = Verdict(rust: bool) | Errors(messages: seq<string>)

  /** What `is_rust` answers for `lang`: the messages the tokenizer records, or the classification of its tokens. */
  function RustCheckOf(lang: string): (r: RustCheck)
    ensures r.Errors? ==> r.messages != []
  {
    var run := Tokens(lang);
    if run.end.errors == [] then Verdict(Classified(lang, run.tokens, false).rust) else Errors(run.end.errors)
  }

  method IsRust(lang: string) returns (r: RustCheck)
    ensures r == RustCheckOf(lang)
    ensures lang == [] ==> r == Verdict(true)
    ensures r.Errors? ==> |r.messages| == 1
  {
    var parsed, errors := Parse(lang);
    if errors == [] {
      r := Verdict(parsed.rust);
    } else {
      r := Errors(errors);
    }
  }

  // ----- what the tokenizer yields for some strings -----

  /** A run that nothing stops reaches the end of the string. */
  lemma {:induction false} ScanThrough(data: string, p: nat, run: Run)
    requires p <= |data| && forall k :: p <= k < |data| ==> !Stops(run, data[k])
    ensures Scan(data, p, run) == |data|
    decreases |data| - p
  {
    if p < |data| {
      ScanThrough(data, p + 1, run);
    }
  }

  /** Nothing is yielded at the end of the string, and nothing recorded outside a block. */
  lemma AtEnd(data: string, cur: Cursor)
    requires cur.pos == |data| && cur.errors == [] && !cur.inBlock
    ensures RunFrom(data, cur) == TokenRun([], cur)
  {
  }

  /** A word of a leading character and bareword characters is one token. */
  lemma WordToken(w: string)
    requires w != [] && IsLeading(w[0]) && forall k :: 0 < k < |w| ==> IsBareword(w[k])
    ensures Tokens(w) == TokenRun([LangToken(w)], Cursor(|w|, false, []))
  {
    var start := Cursor(0, false, []);
    ScanThrough(w, 1, Barewords);
    assert TokenStop(w, 0) == |w|;
    assert w[0..|w|] == w;
    assert LexNext(w, start) == Lexed(Some(LangToken(w)), Cursor(|w|, false, []));
    AtEnd(w, Cursor(|w|, false, []));
  }

  /** `rust` alone is Rust. */
  lemma RustIsRust()
    ensures RustCheckOf("rust") == Verdict(true)
  {
    WordToken("rust");
    RustTokenIsRust("rust");
  }

  /** The one token `rust` is classified as Rust. */
  lemma RustTokenIsRust(s: string)
    ensures Classified(s, [LangToken("rust")], false).rust
  {
    NamedTags();
    var tokens := [LangToken("rust")];
    assert !HasOther(tokens) && !HasToken(tokens, "custom") by {
      assert forall k :: 0 <= k < |tokens| ==> tokens[k] == LangToken("rust");
    }
    NoOtherIsRust(s, tokens);
  }

  /** `custom` alone is not Rust. */
  lemma CustomAloneIsNotRust()
    ensures RustCheckOf("custom") == Verdict(false)
  {
    WordToken("custom");
    assert [LangToken("custom")][0] == LangToken("custom");
    CustomIsNotRust("custom", [LangToken("custom")], false);
  }

  /** A quote that is never closed is reported. */
  lemma UnclosedQuoteErrs(t: string)
    requires forall k :: 0 <= k < |t| ==> t[k] != '"'
    ensures RustCheckOf("\"" + t) == Errors([Invalid(UnclosedQuote)])
  {
    var s := "\"" + t;
    assert forall k :: 1 <= k < |s| ==> s[k] == t[k - 1];
    ScanThrough(s, 1, NonQuotes);
    var failed := Cursor(|s|, false, [Invalid(UnclosedQuote)]);
    assert LexNext(s, Cursor(0, false, [])) == Lexed(None, failed);
  }

  /** A comment that is never closed is reported. */
  lemma UnclosedCommentErrs(t: string)
    requires forall k :: 0 <= k < |t| ==> t[k] != ')'
    ensures RustCheckOf("(" + t) == Errors([Invalid(UnclosedComment)])
  {
    var s := "(" + t;
    assert forall k :: 1 <= k < |s| ==> s[k] == t[k - 1];
    ScanThrough(s, 1, NonParens);
    var failed := Cursor(|s|, false, [Invalid(UnclosedComment)]);
    assert LexNext(s, Cursor(0, false, [])) == Lexed(None, failed);
  }

  /** Inside a block that is never closed, the iterator ends with a message. */
  lemma {:induction false} UnclosedInBlock(data: string, cur: Cursor)
    requires cur.pos <= |data| && cur.inBlock && cur.errors == []
    requires forall k :: cur.pos <= k < |data| ==> data[k] != '}'
    ensures RunFrom(data, cur).end.errors != []
    decreases |data| - cur.pos
  {
    var n := LexNext(data, cur);
    var q := Scan(data, cur.pos, Separators);
    if q < |data| {
      var y := LexInBlock(data, cur.(pos := q));
      assert data[q] != '}';
      assert n == Resume(data, cur.(pos := q), y) == y.lexed;
      if n.value.Some? {
        UnclosedInBlock(data, n.cur);
      }
    }
  }

  /** A block that is never closed is reported. */
  lemma UnclosedBlockErrs(t: string)
    requires forall k :: 0 <= k < |t| ==> t[k] != '}'
    ensures RustCheckOf("{" + t).Errors?
  {
    var s := "{" + t;
    assert forall k :: 1 <= k < |s| ==> s[k] == t[k - 1];
    var inside := Cursor(1, true, []);
    assert LexNext(s, Cursor(0, false, [])) == LexNext(s, inside);
    UnclosedInBlock(s, inside);
  }

  // ----- what the classification promises -----

  function HasToken(tokens: seq<Token>, x: string): bool
  {
    exists k :: 0 <= k < |tokens| && tokens[k] == LangToken(x)
  }

  lemma HasTokenInit(tokens: seq<Token>, x: string)
    requires tokens != []
    ensures HasToken(tokens, x) <==> HasToken(tokens[..|tokens| - 1], x) || tokens[|tokens| - 1] == LangToken(x)
  {
    var init := tokens[..|tokens| - 1];
    if HasToken(tokens, x) && tokens[|tokens| - 1] != LangToken(x) {
      var k :| 0 <= k < |tokens| && tokens[k] == LangToken(x);
      assert init[k] == tokens[k];
    }
    if HasToken(init, x) {
      var k :| 0 <= k < |init| && init[k] == LangToken(x);
      assert tokens[k] == init[k];
    }
  }

  /** `seen_custom_tag` is set exactly by a `custom` token. */
  lemma {:induction false} FoldCustom(st: Parsing, tokens: seq<Token>)
    ensures Fold(st, tokens).seenCustom <==> st.seenCustom || HasToken(tokens, "custom")
  {
    if tokens != [] {
      FoldCustom(st, tokens[..|tokens| - 1]);
      HasTokenInit(tokens, "custom");
    }
  }

  /** A `custom` token makes the block not Rust. */
  lemma CustomIsNotRust(s: string, tokens: seq<Token>, isError: bool)
    requires HasToken(tokens, "custom")
    ensures !Classified(s, tokens, isError).rust
  {
    FoldCustom(Start(s), tokens);
  }

  /** An error makes the block not Rust. */
  lemma ErrorIsNotRust(s: string, tokens: seq<Token>)
    ensures !Classified(s, tokens, true).rust
  {
  }

  function HasOther(tokens: seq<Token>): bool
  {
    exists k :: 0 <= k < |tokens| && tokens[k].LangToken? && IsOtherTag(tokens[k].text)
  }

  lemma HasOtherInit(tokens: seq<Token>)
    requires tokens != []
    ensures var last := tokens[|tokens| - 1];
      HasOther(tokens) <==> HasOther(tokens[..|tokens| - 1]) || (last.LangToken? && IsOtherTag(last.text))
  {
    var init := tokens[..|tokens| - 1];
    if HasOther(tokens) {
      var k :| 0 <= k < |tokens| && tokens[k].LangToken? && IsOtherTag(tokens[k].text);
      if k < |init| {
        assert init[k] == tokens[k];
      }
    }
    if HasOther(init) {
      var k :| 0 <= k < |init| && init[k].LangToken? && IsOtherTag(init[k].text);
      assert tokens[k] == init[k];
    }
  }

  /** The step on a token that is not an other tag leaves `seen_other_tags` alone, and an other tag sets it. */
  lemma StepOther(st: Parsing, t: Token)
    ensures t.LangToken? && IsOtherTag(t.text) ==> Step(st, t).seenOther
    ensures !(t.LangToken? && IsOtherTag(t.text)) ==> Step(st, t).seenOther == st.seenOther
  {
  }

  /** `seen_other_tags` is set exactly by an other tag. */
  lemma {:induction false} FoldOther(st: Parsing, tokens: seq<Token>)
    ensures Fold(st, tokens).seenOther <==> st.seenOther || HasOther(tokens)
  {
    if tokens != [] {
      FoldOther(st, tokens[..|tokens| - 1]);
      HasOtherInit(tokens);
      StepOther(Fold(st, tokens[..|tokens| - 1]), tokens[|tokens| - 1]);
    }
  }

  /** Without other tags, a `custom` token or an error, the block is Rust. */
  lemma NoOtherIsRust(s: string, tokens: seq<Token>)
    requires !HasOther(tokens) && !HasToken(tokens, "custom")
    ensures Classified(s, tokens, false).rust
  {
    FoldOther(Start(s), tokens);
    FoldCustom(Start(s), tokens);
    FoldKeepsRust(Start(s), tokens);
  }

  /** `rust` starts out true and no token clears it. */
  lemma {:induction false} FoldKeepsRust(st: Parsing, tokens: seq<Token>)
    requires st.data.rust
    ensures Fold(st, tokens).data.rust
  {
    if tokens != [] {
      FoldKeepsRust(st, tokens[..|tokens| - 1]);
      StepKeepsRust(Fold(st, tokens[..|tokens| - 1]), tokens[|tokens| - 1]);
    }
  }

  lemma StepKeepsRust(st: Parsing, t: Token)
    requires st.data.rust
    ensures Step(st, t).data.rust
  {
  }

  /** Neither a plain Rust tag nor a `custom` token. */
  predicate Keeps(t: Token)
  {
    !(t.LangToken? && (IsPlainRustTag(t.text) || t.text == "custom"))
  }

  /** Once `seen_rust_tags` is set, tokens that are neither plain Rust tags nor `custom` keep it set. */
  lemma {:induction false} FoldKeepsSeenRust(st: Parsing, tokens: seq<Token>, k: nat)
    requires k < |tokens| && Fold(st, tokens[..k + 1]).seenRust
    requires forall j :: k < j < |tokens| ==> Keeps(tokens[j])
    ensures Fold(st, tokens).seenRust
    decreases |tokens|
  {
    if |tokens| == k + 1 {
      assert tokens[..k + 1] == tokens;
    } else {
      var init := tokens[..|tokens| - 1];
      assert init[..k + 1] == tokens[..k + 1];
      assert forall j :: k < j < |init| ==> init[j] == tokens[j];
      FoldKeepsSeenRust(st, init, k);
      assert Keeps(tokens[|tokens| - 1]);
    }
  }

  /**
   * A `rust` token makes the block Rust when no plain Rust tag (`should_panic`, `no_run`,
   * `ignore`, `ignore-…`) comes after it and no `custom` or error comes at all.
   */
  lemma RustTagIsRust(s: string, tokens: seq<Token>, k: nat)
    requires k < |tokens| && tokens[k] == LangToken("rust") && !HasToken(tokens, "custom")
    requires forall j :: k < j < |tokens| ==> Keeps(tokens[j])
    ensures Classified(s, tokens, false).rust
  {
    NamedTags();
    assert tokens[..k + 1][..k] == tokens[..k];
    FoldKeepsSeenRust(Start(s), tokens, k);
    FoldCustom(Start(s), tokens);
    FoldKeepsRust(Start(s), tokens);
  }

  /**
   * The order matters: a plain Rust tag (`should_panic`, `no_run`, `ignore`, `ignore-…`)
   * after another tag clears whatever an earlier `rust` established.
   */
  lemma PlainAfterOtherIsNotRust(s: string, tokens: seq<Token>, isError: bool)
    requires tokens != [] && tokens[|tokens| - 1].LangToken? && IsPlainRustTag(tokens[|tokens| - 1].text)
    requires HasOther(tokens[..|tokens| - 1])
    ensures !Classified(s, tokens, isError).rust
  {
    FoldOther(Start(s), tokens[..|tokens| - 1]);
  }

  /** So `rust,foo,should_panic` is not Rust. */
  lemma RustThenOtherThenShouldPanic(s: string)
    ensures !Classified(s, [LangToken("rust"), LangToken("foo"), LangToken("should_panic")], false).rust
  {
    var tokens := [LangToken("rust"), LangToken("foo"), LangToken("should_panic")];
    assert "foo"[..1][0] == 'f';
    assert TagOf("foo") == Unknown;
    NamedTags();
    assert tokens[..2][1] == LangToken("foo");
    PlainAfterOtherIsNotRust(s, tokens, false);
  }

  /** The targets of the `ignore-…` tokens, in order. */
  function IgnoreTargets(tokens: seq<Token>): seq<string>
  {
    if tokens == [] then []
    else
      var last := tokens[|tokens| - 1];
      IgnoreTargets(tokens[..|tokens| - 1])
        + (if last.LangToken? && StartsWith(last.text, "ignore-") then [last.text[7..]] else [])
  }

  /** The words recorded in `unknown`, in order. */
  function Unknowns(tokens: seq<Token>): seq<string>
  {
    if tokens == [] then []
    else
      var last := tokens[|tokens| - 1];
      Unknowns(tokens[..|tokens| - 1]) + (if last.LangToken? && IsUnknown(last.text) then [last.text] else [])
  }

  /** The step's effect on the lists: `ignore-…` adds its target, an unknown word is recorded. */
  lemma StepLists(st: Parsing, t: Token)
    ensures Step(st, t).ignores == st.ignores + (if t.LangToken? && StartsWith(t.text, "ignore-") then [t.text[7..]] else [])
    ensures Step(st, t).data.unknown == st.data.unknown + (if t.LangToken? && IsUnknown(t.text) then [t.text] else [])
    ensures Step(st, t).data.ignore == (if t == LangToken("ignore") then IgnoreAll else st.data.ignore)
    ensures Step(st, t).data.noRun == (st.data.noRun || t == LangToken("no_run") || t == LangToken("compile_fail"))
  {
    if t.LangToken? {
      IgnorePrefix(t.text);
      NamedTags();
    }
  }

  /** Each tag name means its tag. */
  lemma NamedTags()
    ensures TagOf("should_panic") == ShouldPanic && TagOf("no_run") == NoRun && TagOf("ignore") == IgnoreTag
    ensures TagOf("rust") == RustTag && TagOf("custom") == Custom && TagOf("test_harness") == TestHarness
    ensures TagOf("compile_fail") == CompileFail && TagOf("standalone_crate") == StandaloneCrate
  {
    TestTagNames();
    RustTagNames();
    CompileTagNames();
  }

  lemma TestTagNames()
    ensures TagOf("should_panic") == ShouldPanic && TagOf("no_run") == NoRun && TagOf("ignore") == IgnoreTag
  {
    assert "no_run"[0] != "should_panic"[0];
    assert "ignore"[0] != "should_panic"[0] && "ignore"[0] != "no_run"[0];
  }

  lemma RustTagNames()
    ensures TagOf("rust") == RustTag && TagOf("custom") == Custom && TagOf("test_harness") == TestHarness
  {
    assert "test_harness"[0] != "should_panic"[0];
  }

  lemma CompileTagNames()
    ensures TagOf("compile_fail") == CompileFail && TagOf("standalone_crate") == StandaloneCrate
  {
    assert "compile_fail"[0] != "should_panic"[0] && "compile_fail"[1] != "custom"[1];
    assert "standalone_crate"[1] != "should_panic"[1];
  }

  /** Exactly the words that start with `ignore-` name an ignore target. */
  lemma IgnorePrefix(x: string)
    ensures TagOf(x).IgnoreTarget? <==> StartsWith(x, "ignore-")
  {
    if StartsWith(x, "ignore-") {
      PrefixLetters(x, "ignore-");
      assert x[0] == 'i' && x[6] == '-';
      assert "should_panic"[0] == 's' && "no_run"[0] == 'n';
    }
  }

  /** The lists and flags the loop builds, each against its own definition over the tokens. */
  lemma {:induction false} FoldLists(st: Parsing, tokens: seq<Token>)
    ensures Fold(st, tokens).ignores == st.ignores + IgnoreTargets(tokens)
    ensures Fold(st, tokens).data.unknown == st.data.unknown + Unknowns(tokens)
    ensures Fold(st, tokens).data.noRun <==> st.data.noRun || HasToken(tokens, "no_run") || HasToken(tokens, "compile_fail")
    ensures Fold(st, tokens).data.ignore == (if HasToken(tokens, "ignore") then IgnoreAll else st.data.ignore)
  {
    if tokens != [] {
      var init := tokens[..|tokens| - 1];
      var last := tokens[|tokens| - 1];
      FoldLists(st, init);
      StepLists(Fold(st, init), last);
      HasTokenInit(tokens, "no_run");
      HasTokenInit(tokens, "compile_fail");
      HasTokenInit(tokens, "ignore");
      Assoc(st.ignores, IgnoreTargets(init), if last.LangToken? && StartsWith(last.text, "ignore-") then [last.text[7..]] else []);
      Assoc(st.data.unknown, Unknowns(init), if last.LangToken? && IsUnknown(last.text) then [last.text] else []);
    }
  }

  /**
   * `ignore-…` tokens override a plain `ignore` and list their targets; `compile_fail`
   * implies `no_run`; unknown words are recorded in order.
   */
  lemma ClassifiedLists(s: string, tokens: seq<Token>, isError: bool)
    ensures var ls := Classified(s, tokens, isError);
      && ls.ignore == (if IgnoreTargets(tokens) != [] then IgnoreSome(IgnoreTargets(tokens))
                       else if HasToken(tokens, "ignore") then IgnoreAll else IgnoreNone)
      && (ls.noRun <==> HasToken(tokens, "no_run") || HasToken(tokens, "compile_fail"))
      && ls.unknown == Unknowns(tokens)
  {
    FoldLists(Start(s), tokens);
  }

  /**
   * `E` and four digits is an error code that keeps the block Rust; `E` and four bytes that
   * are not a number counts as another tag but is not recorded in `unknown`.
   */
  lemma ErrorCodeStep(st: Parsing, d: string)
    requires Utf8Len(d) == 4
    ensures AllDigits(d) ==> Step(st, LangToken("E" + d)).data.errorCodes == st.data.errorCodes + ["E" + d]
    ensures AllDigits(d) ==> Step(st, LangToken("E" + d)).seenRust == (!st.seenOther || st.seenRust)
    ensures !ParsesBelow(d, U32Bound) ==>
      Step(st, LangToken("E" + d)) == st.(seenOther := true)
  {
    var x := "E" + d;
    assert x[0] == 'E' && x[1..] == d;
    assert StartsWith(x, "E");
    assert !StartsWith(x, "ignore-") by {
      if StartsWith(x, "ignore-") {
        PrefixLetters(x, "ignore-");
      }
    }
    assert !StartsWith(x, "edition") by {
      if StartsWith(x, "edition") {
        PrefixLetters(x, "edition");
      }
    }
    assert x != "should_panic" && x != "no_run" && x != "ignore" && x != "rust" && x != "custom";
    assert x != "test_harness" && x != "compile_fail" && x != "standalone_crate";
    if AllDigits(d) {
      assert |d| == 4 by {
        AsciiLen(d);
      }
      DigitsValueBound(d);
      assert Pow10(4) == 10000;
      assert Unsigned(d) == d;
    }
  }

  lemma PrefixLetters(x: string, p: string)
    requires StartsWith(x, p)
    ensures |p| <= |x| && forall k :: 0 <= k < |p| ==> x[k] == p[k]
  {
    assert forall k :: 0 <= k < |p| ==> x[..|p|][k] == x[k];
  }

  /** A string of ASCII digits has as many bytes as characters. */
  lemma {:induction false} AsciiLen(d: string)
    requires AllDigits(d)
    ensures Utf8Len(d) == |d|
  {
    if d != [] {
      AsciiLen(d[1..]);
    }
  }
}
