# cargo-insert-docs, modelled in Dafny

`cargo-insert-docs` copies a crate's documentation into its `README.md`. It also writes the
crate's feature list, taken from the comments in `Cargo.toml`, into the crate docs in `lib.rs`.
To move the crate docs it does three things:

- it reads rustdoc's JSON output;
- it resolves every intra-doc link to a docs.rs or doc.rust-lang.org URL;
- it rewrites the markdown: heading levels, Rust code blocks and links.

To edit `lib.rs` it does two things:

- it turns the inner doc attributes into one markdown text;
- it replaces a marked section of that text with `//!` lines.

This project models the core of that pipeline and proves what the code promises about it.

## How the model is organised

| module (file) | models |
|---|---|
| `Wrappers` (wrappers.dfy), `Seqs` (seqs.dfy), `Text` (text.dfy) | Option and Result; sequence helpers; bytes, UTF-8, `char::is_whitespace` and decimal numbers |
| `StringReplacing` (string_replacer.dfy) | `StringReplacer`: a class with the untouched prefix `rest` and the finished `chunks`, which edits a byte string back to front |
| `Markdown` (markdown.dfy) | the tokenizer's event stream (an input, with well-nestedness as a precondition), `byte_range`, `end_of_line`, section markers, subsection tags, HTML comments, definition extraction |
| `RewriteMarkdown` (rewrite_markdown.dfy) | `add_definitions`, the backwards `rewrite` loop and `process_one` (headings, code blocks, hidden lines, links, definitions), the child and descendant iterators, `code_block_fence_is_rust` |
| `Rustdoc` (rustdoc.dfy) | the slice of rustdoc's JSON the resolvers read: the `.index` items and the `.paths` summaries |
| `SimpleIndex` (simple_index.dfy) | the reduction of the index to a name, a kind and child ids, with glob `use`s flattened |
| `IndexParents` (parents.dfy) | the recursive best-parent traversal with its recursion limit of 64 |
| `IndexTree` (index_tree.dfy) and `PathsTree` (paths_tree.dfy) | the two inverted trees, one from the index and one from `.paths`, and `path_to` on each |
| `PathItems` (path_items.dfy) | path items, `url_path_segment`, and the walk up an inverted tree |
| `Resolver` (resolver.dfy) | `item_path`, `item_url`, `crate_doc_url` and the crate-to-package map |
| `ChildToParent` (child_to_parent.dfy) and `CrateDocs` (extract_crate_docs.dfy) | the earlier generation of the resolver on the same datatypes, and the link-rewriting loop of `extract` |
| `FeatureDocs` (extract_feature_docs.dfy) | `##`/`#!` comment lines of the `[features]` table, and the rendered feature list |
| `Config` (config.dfy) | layering of configuration patches, `finish` with its defaults, and the target selection |
| `EditCrateDocs` (edit_crate_docs.dfy) and `Beautify` (beautify.dfy) | `parse_doc_frags`' prefix classification, `unindent_doc_fragments`, `combine_doc_frags`, `FeatureDocsSection::replace`, and rustdoc's `beautify_doc_string` |
| `LangStrings` (lang_string.dfy) | rustdoc's `TagIterator` over a fence info string, and `LangString::parse` / `is_rust` |
| `ErrorSinks` (error_sink.dfy) | `ErrorSink` with its stack of span frames, its tally and its written-to flag; `Event` and `ErrorSinkSpan` with their drop behaviour; message and report formatting |

### Representation

- **Byte-offset text as bytes.** Text whose positions are byte offsets is `seq<byte>`. This covers markdown, the replacer, the rewrite, and the crate-docs editing. `IsCharBoundary` models Rust's UTF-8 boundary checks.
- **Other text as `string`.** Info strings, feature docs, configuration names, messages, item names and URLs are `string`. Where the source measures a `str`, `Utf8Len` gives its byte length.
- **Mutation and loops.** Code that mutates is modelled imperatively:
  - the replacer, the span stack, the tag iterator and the doc builder are classes;
  - `unindent_doc_fragments` updates an `array` of fragments in place;
  - the source's `while`/`for` loops are loops with invariants, except the few listed under "## Left out" that are modelled as recursive functions.
  Each method is proved equal to a specification function, and the properties are proved about those functions.
- **Deterministic map order.** Where the source iterates a `HashMap`, the model takes the order as a sequence, and the later entry wins where `collect()` overwrites. Some lemmas show the result does not depend on that order: `PathsTree.BuiltAll`, `PathsTree.ParentsBuiltAll` and `ChildToParent.CleanedAll`.
- **Panics.** A panic the callers cannot reach becomes a precondition. A panic that inputs can reach becomes an error result:
  - `StringReplacer` returns `ok = false`;
  - `rewrite` returns `None`.
- **Termination.** Loops that the source lets run forever on bad input terminate in the model by a rank or step bound passed as a precondition:
  - the `use`-parent loop of `Tree::new_simple`;
  - the traversal of `child_to_parent`;
  - the climb in `extract_crate_docs`.

## Model

Each operation is specified by a function on values (a reference definition such as `RewriteMarkdown.AllEdits`, `LangStrings.Classified` or `Beautify.Trimmed`). Where such a function only computes, its row is the lemma that states what it means, and the method the source runs is tied to it.

| member | source | states |
|---|---|---|
| StringReplacing.StringReplacer.constructor | src/string_replacer.rs:36-38 | a new replacer has the whole text untouched and no pieces |
| StringReplacing.StringReplacer.Replace | src/string_replacer.rs:40-42 | accepts exactly a range with start <= end <= the untouched length whose ends are character boundaries (otherwise the `assert_le!`s or the slicing panic: here `ok` is false and nothing changes); on success the edit is recorded, the untouched text shrinks to the range start, and the invariant tying the pieces to the edits is kept (also lines 52-67) |
| StringReplacing.StringReplacer.Insert | src/string_replacer.rs:44-46 | `replace` with the empty range at the index |
| StringReplacing.StringReplacer.Remove | src/string_replacer.rs:48-50 | `replace` with the empty replacement |
| StringReplacing.StringReplacer.Rest | src/string_replacer.rs:69-71 | the untouched prefix of the original, up to the start of the last accepted edit |
| StringReplacing.StringReplacer.Finish | src/string_replacer.rs:73-80 | the text with every edit's range replaced by its text; its length changes by exactly the edits' growth; no edits give the original back |
| StringReplacing.Applied | src/string_replacer.rs:23-29 | a list of edits gives a result exactly when every edit fits the untouched prefix left by the edits before it, and then the edits are back to front and the result is the range replacement (also lines 52-80) |
| StringReplacing.FitsBackToFront | src/string_replacer.rs:23-29 | edits that never panic are in back-to-front order and do not overlap (also lines 53-54) |
| StringReplacing.FitsAppend | src/string_replacer.rs:53-54 | one more edit is accepted exactly when it fits the prefix the earlier edits left untouched (also line 66) |
| StringReplacing.FitsPrefix | src/string_replacer.rs:53-54 | once a prefix of the edits panics, the whole list panics |
| StringReplacing.FitsThen | src/string_replacer.rs:52-67 | issuing `a` then `b` fits exactly when `a` fits and `b` fits what `a` leaves, and the untouched text composes |
| StringReplacing.UntouchedOriginal | src/string_replacer.rs:66 | from the original, what is left untouched is the text up to the last edit's start (also lines 69-71) |
| StringReplacing.ReplaceRangesAppend | src/string_replacer.rs:56-66 | a new edit inside the untouched prefix replaces its range there and keeps everything the earlier edits produced after the prefix |
| StringReplacing.ReplaceRangesLength | src/string_replacer.rs:74 | the finished length is the original length plus the growth of every edit (the capacity `finish` reserves) |
| StringReplacing.ReplaceStep | src/string_replacer.rs:56-66 | pushing the end chunk and the replacement keeps "untouched prefix + pieces in reverse order == replaced text" |
| StringReplacing.CutBound | src/string_replacer.rs:66 | the untouched length never grows |
| StringReplacing.Untouched | src/string_replacer.rs:66 | the untouched text after some edits is a prefix of the text before them |
| StringReplacing.RejectedRanges | src/string_replacer/tests.rs:64-88 | a reversed range, a range past the end and an overlap with an earlier edit all panic |
| Markdown.NearestEnter | src/markdown.rs:218-228 | the nearest index below the exit that holds an Enter of the same name, and `None` only when there is none at all |
| Markdown.ByteRange | src/markdown.rs:213-216 | runs from the point of that Enter to the point of the Exit (also lines 218-231) |
| Markdown.ByteRangeWithin | src/markdown.rs:213-231 | on a well-formed event stream the Enter exists (no `unpaired enter/exit` panic) and the range is ordered, inside the text and on character boundaries |
| Markdown.PointsOrdered | src/markdown.rs:213-231 | event points never decrease along a well-formed stream |
| Markdown.Span | src/markdown.rs:213-216 | `byte_range` on a well-formed stream, with its bounds as above |
| Markdown.EndOfLine | src/markdown.rs:233-238 | just past the first line feed at or after the index, or the end of the text when there is none |
| Markdown.LastMarker | src/markdown.rs:156-180 | the last HTML node below a bound whose text is exactly the marker, or `None` when no node below matches |
| Markdown.LastMarkerStep | src/markdown.rs:156-180 | one step of the reverse scan |
| Markdown.HtmlTextsAt | src/markdown.rs:159-168 | the table of HTML node texts has at each index the text of that event when it is an HtmlFlow or HtmlText exit |
| Markdown.FindSection | src/markdown.rs:148-183 | the reverse scan returns the section between the last end marker and the nearest start marker before it, or `None` |
| Markdown.SectionOrdered | src/markdown.rs:148-183 | a found section is ordered: span start <= content start <= content end <= span end <= text length |
| Markdown.NoHtmlNoSection | src/markdown.rs:156-165 | without HTML nodes no marker is found, so no section |
| Markdown.CommentsShape | src/markdown.rs:93-104 | the comments found in an HTML node come in increasing order, do not overlap, and each starts with `<!--` and ends with `-->` |
| Markdown.HtmlComments | src/markdown.rs:92-110 | every range found is a comment of the markdown, from `<!--` to `-->`, lying inside one of the HTML nodes |
| Markdown.HtmlRanges | src/markdown.rs:112-128 | the ranges of the HTML nodes, last node first, all inside the text |
| Markdown.Shift | src/markdown.rs:106-109 | each comment range moved by the node's start offset |
| Markdown.NameAndKind | src/markdown.rs:61-71 | ` start` gives a start tag, ` end` an end tag, and the returned name is what precedes the suffix |
| Markdown.TagOfShape | src/markdown.rs:73-83 | a comment recognised as a subsection tag is exactly `<!-- {section} {name} start -->` or `... end -->` |
| Markdown.SubsectionTags | src/markdown.rs:57-84 | at most one tag per comment; the text of every tag's range is exactly the tag comment of its name and kind; a first comment that is a tag gives the first tag, with its range |
| Markdown.TagRoundTrip | src/markdown.rs:73-83 | every comment of the tag form is recognised, with its name and kind |
| Markdown.BareMarkersAreNotTags | src/markdown.rs:73-83 | the plain section markers are not subsection tags (no name) (also lines 149-150) |
| Markdown.PairTagsAt | src/markdown.rs:31-52 | walking back, a start with no pending end fails with `subsection end without start`; an end followed by the start of the same name makes a section; anything else fails with `subsections must be disjoint` |
| Markdown.FindSubsections | src/markdown.rs:23-55 | the loop with its pending end tag computes exactly that pairing |
| Markdown.DefinitionAt | src/markdown.rs:198-201 | the range removed for a definition starts at the definition and runs to the end of its line |
| Markdown.DefinitionMarks | src/markdown.rs:191-205 | for every event, the range removed there exactly when it is a definition exit |
| Markdown.PickedWithin | src/markdown.rs:191-205 | all removed ranges are inside the text |
| Markdown.DefinitionStep | src/markdown.rs:199-203 | one more definition: the removal fits exactly when it fits the untouched prefix, and once one does not fit, the whole extraction panics |
| Markdown.RemovalsKeepLength | src/markdown.rs:201-203 | the removed text and the removals account for every byte |
| Markdown.ExtractDefinitions | src/markdown.rs:185-211 | returns a result exactly when the removals do not panic; then the text without its definitions is the replacer's output, the definitions are the removed slices joined, last first, and the two lengths add up to the text's |
| RewriteMarkdown.Scan | src/extract_crate_docs/rewrite_markdown.rs:312-354 | the `(index, depth)` pairs both iterators pass, counting down from the construct's Exit and stopping at the Enter at depth 0 |
| RewriteMarkdown.ExitsDecrease | src/extract_crate_docs/rewrite_markdown.rs:315-331 | the Exits the scan keeps come out strictly decreasing (also lines 337-353) |
| RewriteMarkdown.Children | src/extract_crate_docs/rewrite_markdown.rs:334-354 | the direct children: Exits below the construct, at depth 1, nearest first |
| RewriteMarkdown.Descendants | src/extract_crate_docs/rewrite_markdown.rs:312-332 | all Exits inside the construct, nearest first |
| RewriteMarkdown.FirstNamed | src/extract_crate_docs/rewrite_markdown.rs:300-310 | the first position with the name, with none of that name before it, or `None` when none has it |
| RewriteMarkdown.Named | src/extract_crate_docs/rewrite_markdown.rs:292-298 | `filter(..).next()`: an element of the list with the name |
| RewriteMarkdown.Child | src/extract_crate_docs/rewrite_markdown.rs:296-298 | a child Exit of the name, below the construct |
| RewriteMarkdown.Descendant | src/extract_crate_docs/rewrite_markdown.rs:292-294 | a descendant Exit of the name, below the construct |
| RewriteMarkdown.ChildIsHighest | src/extract_crate_docs/rewrite_markdown.rs:296-298 | `child` finds a child of the name whenever there is one, and it is the one with the highest index (also lines 334-354) |
| RewriteMarkdown.NthNamed | src/extract_crate_docs/rewrite_markdown.rs:106-107 | `descendants_with_name(..).nth(n)` is a descendant with the name |
| RewriteMarkdown.LastChild | src/extract_crate_docs/rewrite_markdown.rs:334-354 | the lowest-index child of the name (the opening hash run of a heading), found whenever there is one |
| RewriteMarkdown.FindAnyOf | src/extract_crate_docs/rewrite_markdown.rs:60-61 | the largest index below the bound holding an Exit of one of the five interesting names, and `None` when there is none (also lines 356-361) |
| RewriteMarkdown.LookupSpec | src/extract_crate_docs/rewrite_markdown.rs:47-48 | the map collected from the links has a key exactly when some entry has it, and then the value of the last such entry |
| RewriteMarkdown.AddDefinitions | src/extract_crate_docs/rewrite_markdown.rs:31-44 | the loop appends exactly the definition block |
| RewriteMarkdown.WithDefinitionsShape | src/extract_crate_docs/rewrite_markdown.rs:31-44 | the markdown stays a prefix; no links add nothing; otherwise a blank line comes first |
| RewriteMarkdown.DefinitionLinesAppend | src/extract_crate_docs/rewrite_markdown.rs:38-41 | each link adds the line `[id]: dest` followed by a line feed, with the placeholder for an unresolved one, after the lines before it |
| RewriteMarkdown.AsI8 | src/extract_crate_docs/rewrite_markdown.rs:86 | `len as i8` keeps lengths below 128 |
| RewriteMarkdown.NewLevel | src/extract_crate_docs/rewrite_markdown.rs:87 | the new level is always between 1 and 6 |
| RewriteMarkdown.NewLevelIsClamp | src/extract_crate_docs/rewrite_markdown.rs:86-88 | saturating first and clamping after equals the exact sum clamped to 1..6, and the slice of `######` is that many hashes |
| RewriteMarkdown.ShrinkHeadingsTable | src/extract_crate_docs/rewrite_markdown/tests.rs:148-161 | the levels the heading tests expect for `##` shifted by -3..6 and for `####` by -2 |
| RewriteMarkdown.HashEdit | src/extract_crate_docs/rewrite_markdown.rs:85-89 | the run of hashes is replaced by 1 to 6 hashes, as many as the new level |
| RewriteMarkdown.HeadingEditsAsWritten | src/extract_crate_docs/rewrite_markdown.rs:80-90 | the heading arm as written: at most one edit, on the run `child` finds |
| RewriteMarkdown.HeadingEdits | src/extract_crate_docs/rewrite_markdown.rs:80-90 | the heading arm on the opening run: at most one edit |
| RewriteMarkdown.HeadingArmsAgree | src/extract_crate_docs/rewrite_markdown.rs:80-90 | both arms edit exactly when the heading has a run, and they agree when it has only one |
| RewriteMarkdown.AnyStartSpec | src/extract_crate_docs/rewrite_markdown.rs:378-382 | the loop over the starts returns true exactly when the info starts with one of them |
| RewriteMarkdown.FenceIsRustSpec | src/extract_crate_docs/rewrite_markdown.rs:363-385 | a fence is Rust exactly when its info is empty or starts with one of the seven words |
| RewriteMarkdown.FenceIsRustExamples | src/extract_crate_docs/rewrite_markdown/tests.rs:124-146 | the fence infos of the fence tests: empty, `edition2018` and `ignore-x86_64,ignore-windows` are Rust, `c` is not |
| RewriteMarkdown.ChunkEdits | src/extract_crate_docs/rewrite_markdown.rs:267-284 | cleaning a chunk makes at most one edit, and none past the limit when the chunk ends inside it |
| RewriteMarkdown.ChunkEditsSpec | src/extract_crate_docs/rewrite_markdown.rs:267-290 | after leading whitespace, `#` then a space or nothing removes the line through its line feed, `##` removes exactly one `#`, anything else is left alone |
| RewriteMarkdown.ChunkEditsUnlimited | src/extract_crate_docs/rewrite_markdown.rs:274 | with the limit past the end of the line the edit is the one the source makes |
| RewriteMarkdown.ChildrenEditsEndBy | src/extract_crate_docs/rewrite_markdown.rs:124-132 | when every child ends by the limit, so does every edit made for them |
| RewriteMarkdown.FencedEditsShape | src/extract_crate_docs/rewrite_markdown.rs:91-118 | a fence with info is edited only when the info marks Rust, and then last relabelled `rust`; without info `rust` is inserted after the second fence run found, and a block with fewer runs is left alone |
| RewriteMarkdown.IndentedEditsStayInBlock | src/extract_crate_docs/rewrite_markdown.rs:120-135 | the indented block is closed by a fence at its end and opened by a Rust fence at its start, and (with the corrected limit) every edit between stays inside the block |
| RewriteMarkdown.IndentedEditsAsWritten | src/extract_crate_docs/rewrite_markdown.rs:120-135 | (as written) the closing fence after the block is issued first and the Rust fence before it last |
| RewriteMarkdown.Dissolve | src/extract_crate_docs/rewrite_markdown.rs:155-162 | an unresolved link is replaced by at most one edit |
| RewriteMarkdown.DissolveOutcome | src/extract_crate_docs/rewrite_markdown.rs:155-162 | dissolving replaces the link's bytes by the bytes of its label text, or does nothing without a label text |
| RewriteMarkdown.ResourceLinkOutcomes | src/extract_crate_docs/rewrite_markdown.rs:141-169 | an inline link whose destination is missing from the map is kept, an unresolved one is dissolved, a resolved one gets its destination replaced |
| RewriteMarkdown.LinkArms | src/extract_crate_docs/rewrite_markdown.rs:136-141 | a link without a label is kept; a link with a resource part takes the inline arm |
| RewriteMarkdown.NonResourceLinksKeepDefinitions | src/extract_crate_docs/rewrite_markdown.rs:171-219 | a reference or shortcut link never gets a url: it is kept, or dissolved into its label text |
| RewriteMarkdown.LinkEdits | src/extract_crate_docs/rewrite_markdown.rs:136-219 | a link gets at most one edit, whichever arm handles it |
| RewriteMarkdown.DefinitionEdits | src/extract_crate_docs/rewrite_markdown.rs:221-255 | a definition gets at most one edit |
| RewriteMarkdown.PlaceholderDefinitionRemoved | src/extract_crate_docs/rewrite_markdown.rs:231-239 | a definition with the placeholder destination is removed through its line feed |
| RewriteMarkdown.ResolvedDefinition | src/extract_crate_docs/rewrite_markdown.rs:241-254 | any other definition is looked up by its destination string |
| RewriteMarkdown.UrlEdits | src/extract_crate_docs/rewrite_markdown.rs:151-153 | at most one edit for a destination (also lines 165-166, 252-253) |
| RewriteMarkdown.UrlEditsOutcome | src/extract_crate_docs/rewrite_markdown.rs:165-166 | a resolved destination is replaced by its url; a missing or unresolved one is kept (also lines 241-253) |
| RewriteMarkdown.Issue | src/extract_crate_docs/rewrite_markdown.rs:79-257 | issuing a construct's edits to the replacer succeeds exactly when each fits what the ones before left, and records them all |
| RewriteMarkdown.IssueOne | src/string_replacer.rs:52-67 | one more edit fits exactly the untouched prefix, and once one does not fit no longer list does |
| RewriteMarkdown.ProcessOne | src/extract_crate_docs/rewrite_markdown.rs:71-258 | (corrected) `process_one` issues exactly that construct's edits, or panics when one does not fit |
| RewriteMarkdown.EditsAt | src/extract_crate_docs/rewrite_markdown.rs:79-257 | (corrected) a heading, a link or a definition takes at most one edit; an indented block takes at least its two fences |
| RewriteMarkdown.Rewrite | src/extract_crate_docs/rewrite_markdown.rs:46-69 | (corrected) no events give the markdown back; otherwise the result is the markdown with every construct's edits applied, from the end backwards, or `None` where the source panics |
| RewriteMarkdown.IssueStep | src/extract_crate_docs/rewrite_markdown.rs:63-66 | one turn of the loop: the construct's edits fit the untouched prefix, or the whole run panics |
| RewriteMarkdown.RewriteMarkdown | src/extract_crate_docs/rewrite_markdown.rs:19-22 | (corrected) the definitions are added first, then the text with them is rewritten |
| RewriteMarkdown.AllEditsStep | src/extract_crate_docs/rewrite_markdown.rs:63-66 | the loop index strictly decreases, so each construct is processed once, nearest the end first |
| RewriteMarkdown.AllEditsSuffix | src/extract_crate_docs/rewrite_markdown.rs:63-66 | the edits issued from any index on end with those issued from any interesting index below it |
| RewriteMarkdown.CutThenPanics | src/string_replacer.rs:53-54 | after one edit, a next edit that ends past its start panics (also line 66) |
| RewriteMarkdown.HeadingThenNext | src/extract_crate_docs/rewrite_markdown.rs:63-66 | from just above a heading the loop issues the heading's edit and then the next construct's (also lines 80-90) |
| RewriteMarkdown.EditInsideHeadingPanics | src/extract_crate_docs/rewrite_markdown.rs:63-66 | (corrected) a construct inside an ATX heading (a link, say) is visited after the heading, whose hash edit has cut the untouched text to the run's start; an edit of it that ends past that point makes the replacer panic (also lines 80-90, 136-169) |
| RewriteMarkdown.HiddenLastLinePanics | src/extract_crate_docs/rewrite_markdown.rs:120-135 | as written, the indented block `    # x` followed by a line feed panics: the hidden line is removed through the line feed past the point where the closing fence was inserted (also lines 267-284) |
| RewriteMarkdown.HiddenLastLineWrapped | src/extract_crate_docs/rewrite_markdown.rs:120-135 | removing the hidden line only up to the block's end wraps the block as intended |
| RewriteMarkdown.ClosedHeadingKeepsLevel | src/extract_crate_docs/rewrite_markdown.rs:80-90 | as written, shrinking `# a #` by one level doubles the closing run and leaves the heading at level 1 |
| RewriteMarkdown.ClosedHeadingShrunk | src/extract_crate_docs/rewrite_markdown.rs:80-90 | taking the opening run makes it the level-2 heading `## a #` |
| SimpleIndex.Name | src/extract_crate_docs/resolver/index/simple.rs:42-44 | the item's name, or the empty string when it has none |
| SimpleIndex.Kind | src/extract_crate_docs/resolver/index/simple.rs:46-71 | the simple kind follows the item's variant: a `use` exactly when the item is one, carrying whether it is `#[doc(inline)]`; a function exactly when the item is one, carrying `has_body` (also lines 135-151) |
| SimpleIndex.FromItem | src/extract_crate_docs/resolver/index/simple.rs:11-14 | the simple item has the item's name, its kind and its children |
| SimpleIndex.Simplify | src/extract_crate_docs/resolver/index.rs:22-24 | the simple index has the same ids as the crate index, each mapped to the simple form of its own item |
| SimpleIndex.ChildrenAreMentioned | src/extract_crate_docs/resolver/index/simple.rs:87-133 | outside glob `use`s, an id is a child exactly when the item mentions it, except that a unit struct has no children |
| SimpleIndex.ChildrenOrder | src/extract_crate_docs/resolver/index/simple.rs:89 | the children come in the order of the item's own lists: fields then impls, variants then impls, trait items then implementations, module items, impl items, a primitive's impls; `None` entries of a tuple struct are dropped (also lines 106-133) |
| SimpleIndex.LeavesHaveNoChildren | src/extract_crate_docs/resolver/index/simple.rs:90 | extern crates, fields, functions, aliases, constants, statics, extern types, macros and associated items have no children (also lines 112, 118-132) |
| SimpleIndex.UseHasItsTarget | src/extract_crate_docs/resolver/index/simple.rs:102-104 | a non-glob `use` has at most one child, and that child is exactly its target |
| SimpleIndex.ChildrenIgnoreFuel | src/extract_crate_docs/resolver/index/simple.rs:87-133 | outside glob `use`s the depth bound on following glob chains does not change the children |
| SimpleIndex.GlobUseTakesTargetChildren | src/extract_crate_docs/resolver/index/simple.rs:91-101 | a glob `use` of a missing id has no children; a glob `use` of a present item that is not itself a glob `use` has exactly that item's children |
| IndexParents.KindOf | src/extract_crate_docs/resolver/index/parents.rs:53-57 | a parent is a non-inline `use` exactly when its item is a `use` without `#[doc(inline)]` |
| IndexParents.BetterThanRules | src/extract_crate_docs/resolver/index/parents.rs:130-137 | the four cases of `is_better_than`: a non-inline `use` never beats another parent, any other parent beats a non-inline `use`, between two others the smaller depth wins, and between two non-inline `use`s the newcomer wins |
| IndexParents.AtLeastAsGoodIsPreorder | src/extract_crate_docs/resolver/index/parents.rs:130-137 | "no worse than" is reflexive, transitive and total, so the kept parent is a best one among those offered |
| IndexParents.Record | src/extract_crate_docs/resolver/index/parents.rs:65-74 | offering a parent adds the child as a key, keeps every other entry, installs the parent for a new child, and keeps a parent that is no worse than both the old one and the newcomer |
| IndexParents.ChildDepth | src/extract_crate_docs/resolver/index/parents.rs:76-79 | the child's depth is the parent's or one more, and it stays the same exactly when the parent or the child is a `use` |
| IndexParents.NonEmptyNames | src/extract_crate_docs/resolver/index/parents.rs:31-38 | the error path keeps exactly the non-empty names |
| IndexParents.KidsStep | src/extract_crate_docs/resolver/index/parents.rs:60-88 | one step of the loop over the children: a missing child is skipped; a present one is recorded, visited one depth further, and a failure of that visit stops the loop |
| IndexParents.ParentsRecurse | src/extract_crate_docs/resolver/index/parents.rs:23-91 | the recursive method computes the reference traversal, including the "recursed too deep" failure once the path is longer than 64 |
| IndexParents.Ids | src/extract_crate_docs/resolver/index/parents.rs:20 | the finished map has the same keys, and each maps to the id of its chosen parent |
| IndexParents.Parents | src/extract_crate_docs/resolver/index/parents.rs:17-21 | the method computes the reference `parents` function from the root at depth 0 with an empty path |
| IndexParents.NodeInvariant | src/extract_crate_docs/resolver/index/parents.rs:23-91 | a successful visit keeps the table sound and rooted, only adds keys, and records every present child of the visited item |
| IndexParents.KidsInvariant | src/extract_crate_docs/resolver/index/parents.rs:60-88 | a successful loop keeps the table sound and rooted and records every present child it went over |
| IndexParents.RecordKeeps | src/extract_crate_docs/resolver/index/parents.rs:65-74 | recording a present child of a recorded parent keeps the table sound and rooted |
| IndexParents.KidsCombine | src/extract_crate_docs/resolver/index/parents.rs:60-88 | the keys added by one loop step and by the rest of the loop together have their children recorded |
| IndexParents.ParentsSound | src/extract_crate_docs/resolver/index/parents.rs:17-21 | in the result each key is a present child of its parent, each parent is the root or a key, and the present children of the root and of every key are keys |
| IndexParents.SelfLoopTooDeep | src/extract_crate_docs/resolver/index/parents.rs:30-42 | visiting an item that is its own child always ends in the "recursed too deep" failure |
| IndexParents.KidsReachSelf | src/extract_crate_docs/resolver/index/parents.rs:30-42 | a loop over children that include a self-containing item fails in the same way (also lines 60-88) |
| IndexParents.GlobSelfImportTooDeep | src/extract_crate_docs/resolver/index/simple.rs:91-101 | a glob `use` of the module that contains it is its own child in the simple index, so reaching it makes `parents` fail |
| IndexTree.ItemKind | src/extract_crate_docs/resolver/index.rs:108-133 | no kind exactly for `use`s, impls and extern crates; a function is a function, and no item is a method by its own kind |
| IndexTree.FirstNonUse | src/extract_crate_docs/resolver/index.rs:45-60 | the climb ends at a present item that is not a `use`: the start itself if it is not one, otherwise the climb from its recorded parent |
| IndexTree.Resolve | src/extract_crate_docs/resolver/index.rs:45-69 | after the climb, an impl is replaced by its own parent when it has one, and a function found under an impl becomes a method |
| IndexTree.InvTreeShape | src/extract_crate_docs/resolver/index.rs:28-82 | the tree holds exactly the items that are not `use`s, impls or extern crates, under their own names; an item has a parent exactly when `parents` chose one; only functions become methods; a `use` is a parent only when the climb ended at an impl without a parent of its own |
| IndexTree.BuiltStep | src/extract_crate_docs/resolver/index.rs:32-79 | one step of the loop over the ids: a dissolved item is skipped and any other is inserted with its resolved value |
| IndexTree.BuiltAll | src/extract_crate_docs/resolver/index.rs:32-81 | the loop over the ids, in any order, builds the reference tree |
| IndexTree.ResolveParent | src/extract_crate_docs/resolver/index.rs:45-73 | the inner loop computes the reference resolution |
| IndexTree.NewSimple | src/extract_crate_docs/resolver/index.rs:28-82 | a `parents` failure is passed on; otherwise the tree is the reference tree of the chosen parents |
| IndexTree.PathOfShape | src/extract_crate_docs/resolver/index.rs:84-98 | for an id whose walk up the parents ends: there is no path exactly for ids outside the tree; otherwise the path starts at the id and each next item is the parent entry of the one before |
| IndexTree.PathTo | src/extract_crate_docs/resolver/index.rs:84-98 | for an id whose walk up the parents ends, the loop computes the reference path |
| IndexTree.ImplFunctionIsMethod | src/extract_crate_docs/resolver/index.rs:62-66 | a function in an impl of a struct is linked as a method of the struct |
| PathsTree.ItemName | src/extract_crate_docs/resolver/paths.rs:136-138 | the last segment of the summary's path, or the empty string for an empty path |
| PathsTree.SummaryKind | src/extract_crate_docs/resolver/paths.rs:140-166 | no kind exactly for extern crates, `use`s, impls and keywords; no summary is a method by its own kind |
| PathsTree.WithoutLast | src/extract_crate_docs/resolver/paths.rs:89-92 | nothing exactly for an empty path; otherwise the prefix that, with the last element added back, is the whole path |
| PathsTree.PathToIdShape | src/extract_crate_docs/resolver/paths.rs:126-134 | every visited summary's path is a key, and every key maps to a visited id that has that path |
| PathsTree.PathToIdLaterWins | src/extract_crate_docs/resolver/paths.rs:126-134 | of the ids sharing a path, the one visited last is kept |
| PathsTree.PathToId | src/extract_crate_docs/resolver/paths.rs:126-134 | the loop computes the reference path-to-id map |
| PathsTree.ParentsBuiltStep | src/extract_crate_docs/resolver/paths.rs:107-121 | one step of the loop: a summary with a path of one segment or less, or whose prefix has no id, is skipped; any other records the prefix's id |
| PathsTree.ParentsBuiltAll | src/extract_crate_docs/resolver/paths.rs:101-124 | the loop, in any order of the ids, builds the reference parent map, so sorting them does not matter |
| PathsTree.Parents | src/extract_crate_docs/resolver/paths.rs:101-124 | the method computes the reference parent map |
| PathsTree.ParentsMapShape | src/extract_crate_docs/resolver/paths.rs:101-124 | a summary has a parent exactly when its path has more than one segment and some summary owns the path without its last segment, and that parent owns it |
| PathsTree.BuiltStep | src/extract_crate_docs/resolver/paths.rs:28-59 | one step of the loop over the summaries: one without a kind is skipped and any other is inserted with its resolved value |
| PathsTree.BuiltAll | src/extract_crate_docs/resolver/paths.rs:28-61 | the loop, in any order, builds the reference tree |
| PathsTree.ParentsMapWithin | src/extract_crate_docs/resolver/paths.rs:101-124 | every recorded parent is a summary |
| PathsTree.ParentFor | src/extract_crate_docs/resolver/paths.rs:36-55 | the parent lookup takes the recorded parent, lifts the child of an impl with a parent to that parent and makes it a method |
| PathsTree.NewSimple | src/extract_crate_docs/resolver/paths.rs:24-62 | the tree is the reference tree of the summaries and their parents |
| PathsTree.BuiltIsValid | src/extract_crate_docs/resolver/paths.rs:101-124 | each parent link shortens the path, so every walk up the built tree ends (also lines 28-61) |
| PathsTree.ValidEnds | src/extract_crate_docs/resolver/paths.rs:67-71 | in a valid tree the walk up from any id ends, and stops at a summary or at the id itself |
| PathsTree.Modules | src/extract_crate_docs/resolver/paths.rs:79-83 | one module item per remaining name, last name first |
| PathsTree.PathOfNone | src/extract_crate_docs/resolver/paths.rs:73-75 | `path_to` finds nothing exactly for ids outside the tree |
| PathsTree.PathTo | src/extract_crate_docs/resolver/paths.rs:64-86 | the method computes the reference path |
| PathsTree.Ascend | src/extract_crate_docs/resolver/paths.rs:65-71 | the first loop collects the items from the id up and stops where the walk stops |
| PathsTree.PushModules | src/extract_crate_docs/resolver/paths.rs:79-83 | the last loop appends the missing ancestors as modules |
| PathsTree.RootFirstNames | src/extract_crate_docs/resolver/paths.rs:64-86 | as many names as items |
| PathsTree.RootFirstNamesCons | src/extract_crate_docs/resolver/paths.rs:64-86 | reading a path root first puts its first item last |
| PathsTree.RootFirstNamesAppend | src/extract_crate_docs/resolver/paths.rs:64-86 | reading a concatenation root first reads the second part first |
| PathsTree.RootFirstModules | src/extract_crate_docs/resolver/paths.rs:79-83 | the pushed modules, read root first, are the remaining names in their own order |
| PathsTree.ChainedIsValid | src/extract_crate_docs/resolver/paths.rs:64-86 | a tree whose every parent owns its child's path minus the last segment is valid |
| PathsTree.BuiltIsChained | src/extract_crate_docs/resolver/paths.rs:28-61 | without impls and empty paths among the summaries, every parent owns the child's path minus its last segment (also lines 101-124) |
| PathsTree.ClimbNames | src/extract_crate_docs/resolver/paths.rs:65-71 | climbing from an item reads its path from the end, down to the item the walk stopped at |
| PathsTree.PathOfNames | src/extract_crate_docs/resolver/paths.rs:64-86 | read root first, `path_to` gives the item's own path when the walk stops at an entry of the tree; when it stops at an ancestor outside the tree, that ancestor's path without its last segment, then the names below it |
| PathsTree.PartiallyDanglingPath | src/extract_crate_docs/resolver/paths/tests.rs:64-90 | a trait `std::io::Write` alone has the path Write, io, std, the last two as modules |
| PathsTree.SimplePathToId | src/extract_crate_docs/resolver/paths/tests.rs:30-36 | the test's summaries map each path to its id, the later `std` summary replacing `std::io` under id 2 |
| PathsTree.SimpleParents | src/extract_crate_docs/resolver/paths/tests.rs:30-38 | only the function has a parent, the trait |
| PathsTree.SimpleInvTree | src/extract_crate_docs/resolver/paths/tests.rs:30-38 | the tree has the function under the trait and the trait without a parent |
| PathsTree.StdIoModules | src/extract_crate_docs/resolver/paths.rs:79-83 | the trait's remaining path is `std io`, pushed as io then std |
| PathsTree.SimplePath | src/extract_crate_docs/resolver/paths/tests.rs:30-61 | the path of the function is write, Write, io, std, as the test expects |
| PathItems.Page | src/extract_crate_docs/resolver.rs:107-125 | a page URL ends with `.{name}.html` |
| PathItems.Anchor | src/extract_crate_docs/resolver.rs:109-126 | an anchor starts with `#` and ends with `.{name}` |
| PathItems.UrlPathSegmentShape | src/extract_crate_docs/resolver.rs:102-128 | a module is `{name}/`, fields, variants, associated items and methods are anchors, every other kind is a page of its own |
| PathItems.Walk | src/extract_crate_docs/resolver/index.rs:84-98 | the ids the walk visits: none exactly when the id is not in the tree, the id first, each next one the parent of the one before, and the last without a parent in the tree |
| PathItems.StopAt | src/extract_crate_docs/resolver/index.rs:87-91 | the walk stops at the last visited item if it has no parent, else at its parent, which is not in the tree; at the id itself when nothing was visited |
| PathItems.ClimbIsWalk | src/extract_crate_docs/resolver/index.rs:87-91 | the collected items are those of the visited ids, one for one |
| PathItems.WalkStep | src/extract_crate_docs/resolver/index.rs:87-91 | one step of the walk pushes the item and continues at its parent |
| PathItems.EndsMore | src/extract_crate_docs/resolver/index.rs:87-91 | the walk does not depend on the step bound, as long as the bound suffices |
| Rustdoc.Present | src/extract_crate_docs/resolver/index/simple.rs:109 | the present ids of a tuple's fields: no more than there are fields, and exactly the ids that occur |
| Resolver.Underscored | src/extract_crate_docs/resolver.rs:31 | the same length, every `-` replaced by `_` and every other character kept, so no `-` is left |
| Resolver.CrateToPackageShape | src/extract_crate_docs/resolver.rs:28-32 | every package is found under its crate name, and every key maps to a package whose crate name it is |
| Resolver.CrateToPackageLaterWins | src/extract_crate_docs/resolver.rs:28-32 | of the packages sharing a crate name, the one listed last is kept |
| Resolver.Version | src/extract_crate_docs/resolver.rs:76-88 | `latest` for an unknown crate or, with `link_to_latest`, for a workspace member; otherwise the package's version |
| Resolver.PackageName | src/extract_crate_docs/resolver.rs:76-78 | the crate's package name, or the crate name when no package is known |
| Resolver.CrateDocUrlShape | src/extract_crate_docs/resolver.rs:71-92 | `core`, `alloc` and `std` link to doc.rust-lang.org, every other crate to docs.rs, and the URL ends with the crate name as a directory |
| Resolver.ItemPathOf | src/extract_crate_docs/resolver.rs:57-69 | for a resolver whose index tree has no parent cycle: an error exactly when neither tree holds the id, and then the dangling-id message; the index tree is asked first; a found path is never empty |
| Resolver.ItemPath | src/extract_crate_docs/resolver.rs:57-69 | for a resolver whose index tree has no parent cycle, the method computes the reference lookup |
| Resolver.AssembleStartsWithCrate | src/extract_crate_docs/resolver.rs:41-48 | the assembled URL starts with the URL of the crate at the root of the path |
| Resolver.Finish | src/extract_crate_docs/resolver.rs:50-52 | a URL ending in `/` gets `index.html`, any other is kept, and the result never ends in `/` |
| Resolver.ItemUrlShape | src/extract_crate_docs/resolver.rs:37-55 | for a resolver whose index tree has no parent cycle: an item URL is found exactly when a path is, else the dangling-id error; it starts with the URL of the path's crate and never ends in `/` |
| Resolver.ItemUrl | src/extract_crate_docs/resolver.rs:37-55 | for a resolver whose index tree has no parent cycle, the method computes the reference URL |
| Resolver.AssembleUrl | src/extract_crate_docs/resolver.rs:41-48 | the loop concatenates the segments root first, the root as its crate's URL |
| Resolver.AssembleStep | src/extract_crate_docs/resolver.rs:41-48 | one more segment extends the URL by exactly that segment |
| Resolver.ExampleCrateUrl | src/extract_crate_docs/resolver.rs:90 | a non-workspace package links to its versioned docs.rs URL |
| Resolver.ExampleSegments | src/extract_crate_docs/resolver.rs:108-109 | a struct is `struct.Widget.html` and a struct field `#structfield.size` |
| Resolver.StructFieldUrl | src/extract_crate_docs/resolver.rs:37-55 | a struct field's URL is its struct's page with the field's anchor, under the crate's docs.rs URL |
| ChildToParent.AsIndexParent | src/extract_crate_docs/child_to_parent.rs:13-21 | the older candidate record carries the same id and depth, and is a non-inline `use` exactly when the newer one's kind says so |
| ChildToParent.SameRuleAsIndex | src/extract_crate_docs/child_to_parent.rs:23-32 | the older `is_better_than` agrees with the newer resolver's on every pair of candidates |
| ChildToParent.ChildrenAsSimple | src/extract_crate_docs/child_to_parent.rs:190-223 | apart from glob `use`s the children are those the newer resolver reads; a `use`, glob or not, has just its target |
| ChildToParent.ChildRank | src/extract_crate_docs/child_to_parent.rs:91-121 | in an acyclic index every present child ranks below its parent, which bounds the recursion |
| ChildToParent.Record | src/extract_crate_docs/child_to_parent.rs:106-115 | offering a parent adds the child as a key, keeps every other entry, installs the parent for a new child and replaces a recorded one only by a better one |
| ChildToParent.KidsStep | src/extract_crate_docs/child_to_parent.rs:91-121 | one step of the loop: a missing child is skipped; a present one is recorded, then visited at the depth a `use` does not raise |
| ChildToParent.StructBuild | src/extract_crate_docs/child_to_parent.rs:66-124 | the recursive method computes the reference traversal |
| ChildToParent.NodeSound | src/extract_crate_docs/child_to_parent.rs:66-124 | a visit keeps every recorded parent a present item that has the child among its children, and only adds keys |
| ChildToParent.KidsSound | src/extract_crate_docs/child_to_parent.rs:91-121 | the loop over the children does the same |
| ChildToParent.NodeIgnoresVisibility | src/extract_crate_docs/child_to_parent.rs:96-104 | the visibility check is commented out: two indexes that differ only in visibility give the same table |
| ChildToParent.KidsIgnoreVisibility | src/extract_crate_docs/child_to_parent.rs:96-104 | the same for the loop over the children |
| ChildToParent.Resolved | src/extract_crate_docs/child_to_parent.rs:45-54 | the climb ends at a present item that is not a `use` with a recorded parent, and at the start when it is not one |
| ChildToParent.CleanMapShape | src/extract_crate_docs/child_to_parent.rs:35-58 | the keys are exactly the recorded children that are not `use`s, and no value is a `use` with a recorded parent |
| ChildToParent.CleanedStep | src/extract_crate_docs/child_to_parent.rs:38-55 | one step of the loop: a `use` child is skipped, any other gets its resolved parent |
| ChildToParent.CleanedAll | src/extract_crate_docs/child_to_parent.rs:35-58 | the loop, in any order of the keys, builds the reference cleaned map |
| ChildToParent.ResolveUse | src/extract_crate_docs/child_to_parent.rs:45-54 | the inner loop computes the reference climb |
| ChildToParent.CleanMap | src/extract_crate_docs/child_to_parent.rs:35-58 | the method computes the reference cleaned map |
| ChildToParent.ChildToParentOf | src/extract_crate_docs/child_to_parent.rs:9-11 | every key is a present item that is not a `use`, and every value is a present item (also lines 60-64) |
| ChildToParent.ChildToParent | src/extract_crate_docs/child_to_parent.rs:9-11 | the method computes the cleaned traversal from the root at depth 0 |
| ChildToParent.KeysOf | src/extract_crate_docs/child_to_parent.rs:38 | every key of the table is visited once |
| ChildToParent.FixtureStructs | src/extract_crate_docs/child_to_parent.rs:197-198 | a unit struct has no children, so visiting it changes nothing |
| ChildToParent.FixtureUse | src/extract_crate_docs/child_to_parent.rs:106-115 | the plain `use` at the root records the re-exported struct under itself |
| ChildToParent.FixtureModule | src/extract_crate_docs/child_to_parent.rs:23-32 | the module `reexport` takes the struct over from the non-inline `use` |
| ChildToParent.FixtureInlineUse | src/extract_crate_docs/child_to_parent.rs:85-89 | the inline `use` records its struct under itself |
| ChildToParent.FixtureInlineModule | src/extract_crate_docs/child_to_parent.rs:23-32 | the inline `use` at depth 0 keeps the struct against the module at depth 1 |
| ChildToParent.FixtureRootLoop | src/extract_crate_docs/child_to_parent.rs:91-121 | the loop over the root's children gives the expected table |
| ChildToParent.FixtureRootFirst | src/extract_crate_docs/child_to_parent.rs:91-121 | the first step of the root's loop visits the plain `use` |
| ChildToParent.FixtureRootSecond | src/extract_crate_docs/child_to_parent.rs:91-121 | the second step visits the module `reexport` |
| ChildToParent.FixtureRootThird | src/extract_crate_docs/child_to_parent.rs:91-121 | the third step visits the inline `use` |
| ChildToParent.FixtureRootLoopEnd | src/extract_crate_docs/child_to_parent.rs:91-121 | the rest of the loop gives the expected table |
| ChildToParent.FixtureTraversal | src/extract_crate_docs/child_to_parent.rs:60-64 | the traversal from the root gives the expected table |
| ChildToParent.FixtureResolved | src/extract_crate_docs/child_to_parent.rs:45-54 | the inline `use` is replaced by the crate root; the root and the module stay |
| ChildToParent.FixtureCleaned | src/extract_crate_docs/child_to_parent.rs:35-58 | the `use`s are gone, `Reexport` is under `reexport` and `ReexportInline` under the root |
| ChildToParent.FixtureReexports | src/extract_crate_docs/child_to_parent/tests.rs:25-35 | as the test expects: `Reexport` under the `reexport` module, and `ReexportInline` and both modules directly under the crate root |
| CrateDocs.KindOfItem | src/extract_crate_docs.rs:392-419 | an item's kind is never one that only summaries have, nor a method; `use`, impl, function and module exactly for those variants |
| CrateDocs.KindOfSummary | src/extract_crate_docs.rs:421-449 | the conversion loses nothing: the summary kind can be read back from the result, which is never a method or a proc macro |
| CrateDocs.AsPathKind | src/extract_crate_docs.rs:346-381 | no newer path kind exactly for extern crates, keywords, `use`s and impls; a module exactly for a module |
| CrateDocs.ToPathSegment | src/extract_crate_docs.rs:347-390 | an error exactly for extern crates and keywords, with the "unexpected url path segment" message; the empty piece for `use`s and impls; `{name}/` for a module; an anchor or a page naming the item for every other kind |
| CrateDocs.Pop | src/extract_crate_docs.rs:276-278 | nothing exactly for an empty slice; otherwise one element shorter and, with the last element added back, the whole slice |
| CrateDocs.PopPush | src/extract_crate_docs.rs:276-278 | popping undoes a push |
| CrateDocs.FirstImplFunction | src/extract_crate_docs.rs:281-283 | the first position at or after the start where an impl is followed by a function, or none when there is no such position |
| CrateDocs.Fused | src/extract_crate_docs.rs:280-294 | a path without an impl followed by a function is kept; otherwise the first such pair becomes one method named after the function and everything else stays where it was |
| CrateDocs.FuseImplFunctionToMethod | src/extract_crate_docs.rs:280-294 | the search over windows of two and the splice compute the fused path |
| CrateDocs.SummaryParent | src/extract_crate_docs.rs:264-269 | (corrected) a summary has a parent path exactly when its path has more than one segment, and that parent path with the name added back is the whole path |
| CrateDocs.SummaryParentAsWritten | src/extract_crate_docs.rs:264-269 | (as written) every non-empty summary path has a parent, the path without its last segment, so a crate root gets the empty path |
| CrateDocs.ItemOf | src/extract_crate_docs.rs:255-273 | (corrected) an error exactly when the id is in neither table, with the dangling-id message; an index item has its own kind and the recorded parent when there is one; a summary has its kind and its path minus the last segment as its parent |
| CrateDocs.ExpandLength | src/extract_crate_docs.rs:228-244 | the inner loop pushes one entry per segment of the parent path |
| CrateDocs.ExpandAt | src/extract_crate_docs.rs:228-244 | entry k names the segment k places from the end, with the kind recorded for the prefix ending there, or a module when none is |
| CrateDocs.ItemPathShape | src/extract_crate_docs.rs:215-253 | (corrected) the path fails with the dangling-id error for an unknown id, starts with the item itself, has one entry for an index item without a parent, and one per path segment for a summary |
| CrateDocs.ItemPath | src/extract_crate_docs.rs:215-253 | (corrected) the loops compute the reference path |
| CrateDocs.Visit | src/extract_crate_docs.rs:220-249 | (corrected) one turn of the loop either finishes with the reference result or moves to the recorded parent without changing it |
| CrateDocs.ItemPathStep | src/extract_crate_docs.rs:219-249 | (corrected) the path of an id in terms of its item: an error is passed on, no parent ends the path, a parent id continues there, a parent path is expanded |
| CrateDocs.PushAncestors | src/extract_crate_docs.rs:229-244 | the inner loop appends the expansion of the parent path |
| CrateDocs.AfterAssoc | src/extract_crate_docs.rs:219-249 | prefixing a result twice is prefixing it with the two prefixes joined |
| CrateDocs.UrlOfShape | src/extract_crate_docs.rs:173-189 | the URL fails exactly when an entry after the first is an extern crate or a keyword, with the message about the first of them; otherwise it starts with the crate's documentation URL |
| CrateDocs.UrlOfErrSticks | src/extract_crate_docs.rs:183 | once a piece fails, every longer prefix fails with the same error |
| CrateDocs.ItemUrl | src/extract_crate_docs.rs:169-190 | (corrected) the method computes the reference URL of the reversed and fused path |
| CrateDocs.JoinSegments | src/extract_crate_docs.rs:176-189 | the loop computes the reference URL, returning at the first failing piece |
| CrateDocs.PathToKindMap | src/extract_crate_docs.rs:150-158 | every summary's path is a key, every key is the path of a summary with that kind, and a path owned by one summary only maps to its kind |
| CrateDocs.Fragment | src/extract_crate_docs.rs:56-59 | the fragment is empty or starts with `#` and ends the destination |
| CrateDocs.Replacement | src/extract_crate_docs.rs:41-74 | a link whose URL failed becomes its text |
| CrateDocs.LinkEdit | src/extract_crate_docs.rs:30-77 | (corrected) no edit exactly for a destination rustdoc has no item for; an edit replaces exactly the link's span |
| CrateDocs.LinkEditsBackToFront | src/extract_crate_docs.rs:30 | the edits, last link first, each end before the previous one starts |
| CrateDocs.NoKnownLinks | src/extract_crate_docs.rs:33-39 | without any link rustdoc knows, there is no edit |
| CrateDocs.EditInPlace | src/extract_crate_docs.rs:76 | replacing a range inside the untouched front of the edited text is appending that edit |
| CrateDocs.SpliceParts | src/extract_crate_docs.rs:76 | a splice before the point where two texts agree can be done on either |
| CrateDocs.RewriteLinks | src/extract_crate_docs.rs:28-77 | (corrected) the in-place loop over the links, last first, yields the original with every edit applied, and the edits are back to front |
| CrateDocs.RootSummaryAsWritten | src/extract_crate_docs.rs:264-269 | (as written) a crate root's summary gets the empty parent path, a nameless module is pushed above it, and the URL names a crate called "" (also lines 228-244) |
| CrateDocs.RootSummaryUrl | src/extract_crate_docs.rs:192-194 | (corrected) a link to the `alloc` crate goes to its doc.rust-lang.org page |
| FeatureDocs.CommentLineUnprefixed | src/extract_feature_docs.rs:101-119 | a whitespace-only line reads as empty; any other line is an error exactly when it does not start with a space, with the "must start with a space" message; otherwise the text is what follows that one space, without trailing whitespace |
| FeatureDocs.CommentRoundTrip | src/extract_feature_docs.rs:101-119 | text without trailing whitespace, written behind one space and followed by whitespace, reads back as itself |
| FeatureDocs.CommentLine | src/extract_feature_docs.rs:93-99 | nothing for a line without the marker; otherwise the unprefixed reading of the rest, errors included |
| FeatureDocs.KeyDocsErrSticks | src/extract_feature_docs.rs:67-77 | the first bad comment line decides the result of the whole key |
| FeatureDocs.ParseKeysErrSticks | src/extract_feature_docs.rs:45-88 | the first key with a bad comment decides the result of the whole table |
| FeatureDocs.CollectDocs | src/extract_feature_docs.rs:64-77 | the loop over the lines in front of a key computes the reference in-between and feature docs |
| FeatureDocs.Parse | src/extract_feature_docs.rs:20-91 | the loop over the keys computes the reference entries; a manifest without a `features` table has none |
| FeatureDocs.ParseKey | src/extract_feature_docs.rs:46-87 | `default` contributes nothing; any other key its doc comments split in two |
| FeatureDocs.Found | src/extract_feature_docs.rs:68-76 | one line holds at most one comment for a marker |
| FeatureDocs.Block | src/extract_feature_docs.rs:69-76 | the joined comments are empty exactly when there are none |
| FeatureDocs.BlockAppend | src/extract_feature_docs.rs:69-76 | pushing one more comment extends the block by that comment's line |
| FeatureDocs.PushedFound | src/extract_feature_docs.rs:68-76 | what one line pushes is the line of its comment, or nothing |
| FeatureDocs.LineDocsFound | src/extract_feature_docs.rs:67-77 | one line adds its `#!` comment to the in-between docs and its `##` comment to the feature docs |
| FeatureDocs.KeyDocsAreComments | src/extract_feature_docs.rs:64-77 | the collected docs are exactly the `#!` comments and the `##` comments, each closed by a line feed |
| FeatureDocs.UnprefixedIsOneLine | src/extract_feature_docs.rs:101-119 | a comment read from a piece of one line is one line without trailing whitespace |
| FeatureDocs.FoundIsOneLine | src/extract_feature_docs.rs:93-99 | the same for a line with its marker |
| FeatureDocs.CommentsAreOneLine | src/extract_feature_docs.rs:67 | every comment of lines without line feeds is one line without trailing whitespace |
| FeatureDocs.BlockLines | src/extract_feature_docs.rs:140 | splitting a block into lines gives back its comments |
| FeatureDocs.FeatureNamesAppend | src/extract_feature_docs.rs:43-88 | the feature names of joined entries are joined |
| Seqs.ReplaceAll | src/extract_feature_docs.rs:131 | `str::replace` keeps a text in which the pattern does not occur, and replacing the pattern by itself changes nothing |
| FeatureDocs.KeyEntriesShape | src/extract_feature_docs.rs:79-87 | a key other than `default` contributes its feature last, with its `##` docs and its default flag, preceded by an in-between block exactly when it has `#!` comments |
| FeatureDocs.KeyEntriesForm | src/extract_feature_docs.rs:45-88 | what one key contributes is correctly flagged, has no stray in-between block, and names just that key's feature, or none for `default` |
| FeatureDocs.AppendKeeps | src/extract_feature_docs.rs:43-88 | joining two well-formed entry lists keeps them well-formed |
| FeatureDocs.ParsedEntries | src/extract_feature_docs.rs:31-91 | a parsed table has one feature per key other than `default`, in key order, flagged exactly when the `default` array names it as a string, and every in-between block is non-empty and followed by a feature |
| FeatureDocs.DocLines | src/extract_feature_docs.rs:140-145 | the doc lines are empty exactly when there are none |
| FeatureDocs.Piece | src/extract_feature_docs.rs:125-147 | every entry adds something to the output |
| FeatureDocs.PushDocLines | src/extract_feature_docs.rs:140-145 | the loop adds each doc line behind an em dash or two spaces, closed by a line feed |
| FeatureDocs.PushDocText | src/extract_feature_docs.rs:136-146 | empty docs add a line feed, any other its doc lines |
| FeatureDocs.PushFeature | src/extract_feature_docs.rs:130-147 | one feature adds `- ` and the label with `{feature}` replaced by its name, the default marker when it is a default, then its docs |
| FeatureDocs.FormattedStep | src/extract_feature_docs.rs:124-149 | each turn of the loop adds the next entry's piece |
| FeatureDocs.PushInBetween | src/extract_feature_docs.rs:126-129 | an in-between block follows an empty line unless it comes first, and is closed by one more line feed |
| FeatureDocs.Format | src/extract_feature_docs.rs:121-152 | the loop computes the reference rendering |
| FeatureDocs.Extract | src/extract_feature_docs.rs:8-10 | a parse error is passed on; otherwise the rendered entries |
| FeatureDocs.FormattedShape | src/extract_feature_docs.rs:121-152 | the output is empty exactly when there are no entries, and otherwise ends with a line feed |
| FeatureDocs.NoLinesEmpty | src/extract_feature_docs.rs:136-140 | a text with no lines is empty |
| FeatureDocs.InBetweenPadding | src/extract_feature_docs.rs:126-129 | an in-between block is the output's start when it comes first, and otherwise follows an empty line |
| FeatureDocs.FormattedAppend | src/extract_feature_docs.rs:124-149 | the rendering of more entries starts with the rendering of fewer |
| FeatureDocs.Marked | src/extract_feature_docs.rs:140-145 | one rendered line per doc line |
| FeatureDocs.MarkedAt | src/extract_feature_docs.rs:142-144 | the first line is behind an em dash and every other behind two spaces |
| FeatureDocs.MarkedIsOneLine | src/extract_feature_docs.rs:142-144 | a doc line behind its marker is still one line |
| FeatureDocs.DocLinesSplit | src/extract_feature_docs.rs:140-145 | splitting the rendered doc lines gives one line per doc line, behind its marker |
| FeatureDocs.FeatureDocLines | src/extract_feature_docs.rs:136-146 | a feature's `##` comments come out as the lines of its list item |
| FeatureDocs.BlankCommentExamples | src/extract_feature_docs/tests.rs:79-81 | a space, a tab and a no-break space alone read as empty |
| FeatureDocs.TextCommentExamples | src/extract_feature_docs/tests.rs:83-84 | one leading space goes, a second stays, trailing whitespace goes (also line 89) |
| FeatureDocs.TrailingCommentExamples | src/extract_feature_docs/tests.rs:90-92 | double spaces, tabs and no-break spaces at the end go |
| FeatureDocs.BadCommentExamples | src/extract_feature_docs/tests.rs:86-87 | a line starting with a tab or a no-break space is rejected |
| FeatureDocs.FeatureCommentLine | src/extract_feature_docs.rs:68-76 | a `## ` line is a feature comment holding the text after the space, and no in-between comment |
| FeatureDocs.CommentLines | src/extract_feature_docs.rs:67-77 | one comment line per line of text |
| FeatureDocs.KeyDocsSnoc | src/extract_feature_docs.rs:67-77 | one more line continues the loop from the docs so far |
| FeatureDocs.CommentLinesRead | src/extract_feature_docs.rs:64-77 | `## ` comment lines read back as their text, all of it feature docs |
| FeatureDocs.CommentLinesAreOneLine | src/extract_feature_docs.rs:67 | each generated comment line is one line |
| FeatureDocs.CommentLinesKey | src/extract_feature_docs.rs:45-88 | the key in front of those lines contributes only its feature, with the text as its docs |
| FeatureDocs.WritableIsOneLine | src/extract_feature_docs.rs:67 | text that can be written behind `## ` is one line |
| FeatureDocs.FeatureRoundTrip | src/extract_feature_docs.rs:20-152 | a feature documented by `## ` lines parses to a feature whose docs are those lines, and renders each line behind its marker |
| Config.Override | src/config.rs:85-93 | the overwrite's value when it has one, the earlier value otherwise (also lines 165-228) |
| Config.UnwrapOr | src/config.rs:260-289 | the value when there is one, the default otherwise |
| Config.WorkspaceApply | src/config.rs:82-96 | the method sets each of `package`, `workspace` and `exclude` to the overwrite's value when it has one |
| Config.WorkspaceFinish | src/config.rs:98-105 | an unset field takes its type's default (no packages, not the whole workspace, nothing excluded); a set one keeps its value |
| Config.Display | src/config.rs:301-309 | `--lib`, `--bin`, or `--bin {name}` |
| Config.Selection | src/config.rs:278-285 | `lib = true` gives the library; otherwise `bin = true` gives any binary and `bin = "name"` that binary; anything else gives no selection |
| Config.SerializeRoundTrip | src/config.rs:278-285 | a selection written back as `lib`/`bin` and read again is the same selection (also lines 342-366) |
| Config.SerializeShape | src/config.rs:355-364 | the written-back form never sets both fields, sets one exactly when there is a selection, and never writes `false` |
| Config.ApplyOutputs | src/config.rs:165-182 | the fields that say what is written where take the overwrite's value when it has one, and nothing else changes |
| Config.ApplyRustdocFlags | src/config.rs:183-203 | the same for the rustdoc flags and the run guards |
| Config.ApplyFeatures | src/config.rs:204-212 | the same for the feature selection |
| Config.ApplyBuild | src/config.rs:213-228 | `lib` and `bin` are replaced together when either is set in the overwrite; the toolchain, target, target directory and readme path take the overwrite's value when it has one |
| Config.Apply | src/config.rs:162-231 | the method lays every field of the overwrite over a copy of the patch |
| Config.Finish | src/config.rs:233-291 | every unset field takes its documented default (true for the two insertions, the default label, section names, heading shrink and toolchain, false or empty otherwise); `allow_staged` follows `allow_dirty` when that is set; the target selection follows the `lib`/`bin` rule |
| Config.ApplyEmpty | src/config.rs:162-231 | laying the all-`None` patch over a patch, or a patch over it, changes nothing |
| Config.ApplyIdempotent | src/config.rs:162-231 | laying a patch over itself changes nothing |
| Config.ApplyAssociative | src/config.rs:162-231 | layering is associative, so the workspace, package and command-line layers can be grouped either way |
| Config.ApplyTarget | src/config.rs:213-216 | a patch that chooses a target replaces the whole choice; one that does not keeps the earlier choice |
| Config.FinishSerialized | src/config.rs:278-285 | a selection written back into a patch and finished again is the same selection (also lines 355-364) |
| Config.FinishDefaults | src/config.rs:18-22 | with nothing configured every field takes its default (also lines 259-290) |
| Config.WorkspaceApplyLaws | src/config.rs:82-96 | the workspace patches layer with the same identity, idempotence and associativity laws |
| EditCrateDocs.ShownStart | src/edit_crate_docs.rs:172-177 | (corrected) the start of the attribute the error message quotes: its first three characters, or all of a shorter attribute |
| EditCrateDocs.Classify | src/edit_crate_docs.rs:159-179 | (corrected) `//!` is a sugared line comment, `/*!` a sugared block comment, `#![` a raw attribute; any other start is refused, quoting the attribute's start |
| EditCrateDocs.ClassifyByPrefix | src/edit_crate_docs.rs:159 | only the first three characters decide the classification |
| EditCrateDocs.ShownStartAsWritten | src/edit_crate_docs.rs:173-174 | (as written) the quoted start is a prefix of the attribute, up to the offset of its third character |
| EditCrateDocs.ShownStartDropsThirdChar | src/edit_crate_docs.rs:173-174 | on any attribute of three or more characters the quote as written has two characters where three are meant; `#! [doc = "x"]` is quoted as `#!` instead of `#! ` |
| EditCrateDocs.LeadingBlanks | src/edit_crate_docs.rs:295 | the run of spaces and tabs a line starts with: all blanks, and followed by a character that is not one |
| EditCrateDocs.MixedIff | src/edit_crate_docs.rs:265 | some neighbouring fragments differ in kind exactly when some fragment differs from the first |
| EditCrateDocs.AddIsMixed | src/edit_crate_docs.rs:265-273 | `add` is 1 exactly when sugared and raw fragments are mixed, since a mix always holds a sugared one; 0 exactly when all fragments have one kind |
| EditCrateDocs.LinesMin | src/edit_crate_docs.rs:286-300 | the least leading-blank count (plus the extra) over a fragment's lines with text, `usize::MAX` when there are none; a lower bound reached on one of those lines |
| EditCrateDocs.SeqMinBounds | src/edit_crate_docs.rs:284-302 | the minimum over the fragments is a lower bound of each and is one of them |
| EditCrateDocs.FragMins | src/edit_crate_docs.rs:284-301 | one minimum per fragment |
| EditCrateDocs.FragsMinBounds | src/edit_crate_docs.rs:284-302 | the overall minimum bounds every fragment's minimum and is one of them |
| EditCrateDocs.Unindented | src/edit_crate_docs.rs:252-316 | unindenting changes nothing but each fragment's indentation |
| EditCrateDocs.Reindented | src/edit_crate_docs.rs:307-315 | each fragment gets the minimum, less the extra for a raw fragment when the minimum is positive |
| EditCrateDocs.Unindent | src/edit_crate_docs.rs:252-316 | the method writes in place the indentation the reference computes |
| EditCrateDocs.SetIndents | src/edit_crate_docs.rs:307-315 | the loop writes each fragment's indentation in place and changes nothing else |
| EditCrateDocs.UnindentBlank | src/edit_crate_docs.rs:224-231 | a fragment's indentation never reaches past the leading spaces and tabs of any of its lines with text, so the slice in `combine_doc_frags` strips only blanks (also lines 252-316) |
| EditCrateDocs.UnindentTight | src/edit_crate_docs.rs:284-315 | when any line has text, some fragment is stripped of exactly the blanks one of its lines starts with |
| EditCrateDocs.FragsMinBelowMax | src/edit_crate_docs.rs:284-302 | one line with text makes the minimum smaller than `usize::MAX` |
| EditCrateDocs.LineAtMin | src/edit_crate_docs.rs:307-315 | a fragment's minimum below `usize::MAX` is reached on one of its lines, even after the raw adjustment |
| EditCrateDocs.FragTexts | src/edit_crate_docs.rs:224-232 | one text per fragment, in order |
| EditCrateDocs.Repeat | src/edit_crate_docs.rs:214 | `n` copies of the fragment index |
| EditCrateDocs.RepeatIndex | src/edit_crate_docs.rs:214 | every copy is the index |
| EditCrateDocs.RepeatAppend | src/edit_crate_docs.rs:214 | two runs of one index join into one |
| EditCrateDocs.Owners | src/edit_crate_docs.rs:196 | the source map has one entry per byte of the combined text (also line 214) |
| EditCrateDocs.DocsBuilder.constructor | src/edit_crate_docs.rs:199-203 | a new builder has an empty text and an empty source map (also line 222) |
| EditCrateDocs.DocsBuilder.Push | src/edit_crate_docs.rs:206-215 | the line and a line feed are appended, and each of their bytes is mapped to the fragment |
| EditCrateDocs.LinesTextStep | src/edit_crate_docs.rs:225-231 | one more line extends the text of the lines before it |
| EditCrateDocs.PushLine | src/edit_crate_docs.rs:226-230 | a line with text is pushed without its indentation, a blank line as it is |
| EditCrateDocs.PushLinesStep | src/edit_crate_docs.rs:225-231 | one more line extends the text and the source map of the lines before it |
| EditCrateDocs.PushLines | src/edit_crate_docs.rs:225-231 | the inner loop appends the fragment's text, all of it mapped to the fragment |
| EditCrateDocs.CombineStep | src/edit_crate_docs.rs:224-232 | one more fragment extends the joined text and its source map |
| EditCrateDocs.Combine | src/edit_crate_docs.rs:198-235 | the builder loop computes the reference combined docs |
| EditCrateDocs.OwnersValid | src/edit_crate_docs.rs:214 | every byte maps to an existing fragment, and the map never decreases |
| EditCrateDocs.CombinedValid | src/edit_crate_docs.rs:198-235 | the combined docs are well formed |
| EditCrateDocs.UnindentedFits | src/edit_crate_docs.rs:252-316 | after unindenting, every fragment's indentation fits each of its lines with text, so `combine_doc_frags` can slice it off |
| EditCrateDocs.UnindentThenCombine | src/edit_crate_docs.rs:93-95 | fragments unindented as `parse_doc_frags` does combine into well-formed docs, joining `unindent_doc_fragments` to `combine_doc_frags` |
| EditCrateDocs.JoinedSegment | src/edit_crate_docs.rs:206-215 | fragment i's text sits right after the texts before it, and the source map sends each of its bytes to i (also lines 224-232) |
| EditCrateDocs.CommentBlock | src/edit_crate_docs.rs:60-70 | the comment block is empty or ends with a line feed |
| EditCrateDocs.BuildReplacement | src/edit_crate_docs.rs:56-73 | the loop builds a line feed and then one `//!` line per content line |
| EditCrateDocs.CommentBlockStep | src/edit_crate_docs.rs:60-70 | one more line extends the block of the lines before it |
| EditCrateDocs.CommentLine | src/edit_crate_docs.rs:61-69 | a content line becomes `//!`, then a space and the line unless it is whitespace only, then a line feed |
| EditCrateDocs.Replace | src/edit_crate_docs.rs:30-90 | an error exactly when the section starts and ends in one attribute; otherwise the source up to the end of the start attribute, the replacement, and the source from the start of the end attribute with at most one line feed removed |
| EditCrateDocs.CommentedLines | src/edit_crate_docs.rs:60-70 | one comment line per content line |
| EditCrateDocs.CommentBlockLines | src/edit_crate_docs.rs:60-70 | the comment block splits into one `//!` line per content line |
| EditCrateDocs.ReplacementLines | src/edit_crate_docs.rs:56-73 | the replacement is a line feed and then one `//!` line per content line |
| EditCrateDocs.CommentTextReadBack | src/edit_crate_docs.rs:61-67 | dropping `//! ` from a line with text gives back the line |
| Beautify.VerticalTrim | src/edit_crate_docs.rs:323-337 | nothing to trim exactly when the first line is not all stars and the last is empty or not all stars; otherwise at most one line of stars from each end |
| Beautify.Kept | src/edit_crate_docs.rs:392-398 | all lines when there is nothing to trim, the trimmed range otherwise |
| Beautify.SkipFirst | src/edit_crate_docs.rs:349-352 | a block comment skips its first line unless it starts, after whitespace, with a star |
| Beautify.FirstText | src/edit_crate_docs.rs:355-357 | the first line from the start that is not empty after trimming |
| Beautify.TextEnd | src/edit_crate_docs.rs:358-360 | the end of the text once trailing lines empty after trimming are cut off |
| Beautify.BlankRun | src/edit_crate_docs.rs:366-380 | the run of spaces and tabs a line starts with |
| Beautify.StarColumn | src/edit_crate_docs.rs:366-380 | the first star of a line when only spaces and tabs come before it |
| Beautify.ScanLine | src/edit_crate_docs.rs:366-383 | the scan of one line accepts it exactly when it has a star column (the first line) or agrees with the column found, and carries the column on |
| Beautify.BlockText | src/edit_crate_docs.rs:346-364 | the two loops cut off the skipped first line and the empty lines at both ends |
| Beautify.HorizontalTrim | src/edit_crate_docs.rs:339-386 | the method computes the reference margin of the text lines |
| Beautify.MarginShape | src/edit_crate_docs.rs:339-386 | every line of the text agrees with the margin's column, and the margin is made of blanks |
| Beautify.StripLineUndecorates | src/edit_crate_docs.rs:403-410 | stripping takes off at most the margin and one star, and only decoration |
| Beautify.StripAll | src/edit_crate_docs.rs:402-411 | each line is stripped on its own |
| Beautify.StripLines | src/edit_crate_docs.rs:402-411 | the in-place loop strips each line |
| Beautify.Trim | src/edit_crate_docs.rs:390-412 | `changes` is set exactly when a vertical or horizontal trim applies, and the lines are then the trimmed ones |
| Beautify.Beautify | src/edit_crate_docs.rs:322-419 | a string without a line feed comes back unchanged; otherwise the trimmed lines joined by line feeds when something changed |
| Beautify.KeptRun | src/edit_crate_docs.rs:392-398 | the kept lines are a run of the input lines, and the dropped ones are lines of stars |
| Beautify.TrimmedUndecorates | src/edit_crate_docs.rs:390-412 | the trimmed lines are the input's lines with only decoration taken off |
| Beautify.BeautifiedUndecorates | src/edit_crate_docs.rs:388-419 | the result is the input, or its undecorated lines joined by line feeds |
| LangStrings.Scan | src/markdown/lang_string.rs:162-170 | the first position at or after the start that ends the run (not a separator, not a bareword character, a quote, a `)`), or the end of the string; nothing before it ends the run |
| LangStrings.LexString | src/markdown/lang_string.rs:172-180 | the text up to the first closing quote, which is consumed; exactly when no quote is left, the state at the end with "unclosed quote" recorded |
| LangStrings.LexToken | src/markdown/lang_string.rs:209-218 | the whole bareword run, ended by a character that is not a bareword character; a run reaching the end records "unexpected end" there |
| LangStrings.AfterToken | src/markdown/lang_string.rs:263-274 | nothing is recorded exactly at the end or before `}`, a separator or `(`; otherwise the message names the character; the position does not move |
| LangStrings.LexClass | src/markdown/lang_string.rs:182-207 | the position ends the bareword run after the dot; a class with exactly that run as its name exactly when the run is non-empty and is followed by the end or a delimiter; otherwise a message is recorded |
| LangStrings.LexEquals | src/markdown/lang_string.rs:228-236 | nothing is recorded exactly on `=`; otherwise "unexpected end" at the end, or an error naming the character found, which is consumed |
| LangStrings.LexValue | src/markdown/lang_string.rs:237-248 | a quoted or bareword value after the `=`; at the end "expected value after `=`"; on any other character an error naming it |
| LangStrings.LexKey | src/markdown/lang_string.rs:221-226 | a quoted key when the first character is a quote, else the bareword run; on failure a message is recorded |
| LangStrings.LexPair | src/markdown/lang_string.rs:228-258 | after a non-empty key: the pair with exactly that key and a non-empty value from the string, followed by the end or a delimiter; otherwise a message is recorded |
| LangStrings.LexKeyValue | src/markdown/lang_string.rs:220-259 | a pair with a non-empty key and value drawn from the string and a delimiter or the end after it; an empty key, a missing `=` or an empty value records a message |
| LangStrings.LexComment | src/markdown/lang_string.rs:296-304 | nothing is recorded exactly when a `)` follows, and the position is just after the first one; otherwise "unclosed comment" at the end |
| LangStrings.LexInBlock | src/markdown/lang_string.rs:277-293 | inside a block: `}` closes it and `next()` goes on after it; `.`, a quote or a leading character start an attribute; anything else is an error; the end of the string records "unclosed attribute block" |
| LangStrings.LexAttribute | src/markdown/lang_string.rs:282-285 | a class after `.`, else a key-value pair; a failure records a message; a token is drawn from the string |
| LangStrings.TokenStop | src/markdown/lang_string.rs:339-341 | the loop stops on the first character that is not a leading character, or after a leading character on the first that is not a bareword character |
| LangStrings.LexOutside | src/markdown/lang_string.rs:306-349 | outside a block: a yield moves forward with its token drawn from the string, a resumption moves forward without a message |
| LangStrings.LexStopped | src/markdown/lang_string.rs:339-348 | a token whose run reaches the end of the string is the rest of the string; otherwise the character that stopped it decides |
| LangStrings.LexDelimiter | src/markdown/lang_string.rs:307-344 | the character that stopped a token: a quote, `{` opening a block, a separator ending the token, `(` opening a comment, or an "unexpected character" error |
| LangStrings.LexQuoteAfter | src/markdown/lang_string.rs:308-322 | a quote inside a token is an error; at a token's start it opens a quoted token; either way something is yielded |
| LangStrings.LexQuoted | src/markdown/lang_string.rs:313-322 | a quoted token drawn from the string, followed only by the end, `{`, a separator or `(`; any other character is an error naming it |
| LangStrings.LexAfterComment | src/markdown/lang_string.rs:331-338 | after `(`: an unclosed comment is an error; the token before it is yielded; with no token before it `next()` goes on |
| LangStrings.LexNext | src/markdown/lang_string.rs:355-371 | nothing once an error was recorded; a token drawn from the string with progress; only separators left give nothing, with "unclosed attribute block" when a block is open |
| LangStrings.Resume | src/markdown/lang_string.rs:281 | a block parser's yield, or `next()` from where it resumes, with progress |
| LangStrings.RunFrom | src/markdown/lang_string.rs:403 | at most one message is ever recorded; every token is drawn from the string; no more tokens than characters |
| LangStrings.TagIterator.constructor | src/markdown/lang_string.rs:145-153 | a new iterator stands at the start of the string, outside any block, with no error |
| LangStrings.TagIterator.EmitError | src/markdown/lang_string.rs:155-160 | the message, with rustdoc's prefix, is recorded and the error flag set; the position does not move |
| LangStrings.TagIterator.SkipSeparators | src/markdown/lang_string.rs:162-170 | stands where the separator run ends, as `Scan` says; gives that position, or nothing at the end |
| LangStrings.TagIterator.ParseString | src/markdown/lang_string.rs:172-180 | yields and moves exactly as `LexString` |
| LangStrings.TagIterator.ParseToken | src/markdown/lang_string.rs:209-218 | yields and moves exactly as `LexToken` |
| LangStrings.TagIterator.CheckAfterToken | src/markdown/lang_string.rs:263-274 | moves exactly as `AfterToken`, and succeeds exactly when nothing was recorded |
| LangStrings.TagIterator.ParseClass | src/markdown/lang_string.rs:182-207 | yields and moves exactly as `LexClass` |
| LangStrings.TagIterator.ParseKeyValue | src/markdown/lang_string.rs:220-259 | yields and moves exactly as `LexKeyValue` |
| LangStrings.TagIterator.ExpectEquals | src/markdown/lang_string.rs:228-236 | moves exactly as `LexEquals`, and succeeds exactly when nothing was recorded |
| LangStrings.TagIterator.ParseValue | src/markdown/lang_string.rs:237-248 | yields and moves exactly as `LexValue` |
| LangStrings.TagIterator.SkipParenBlock | src/markdown/lang_string.rs:296-304 | moves exactly as `LexComment`, and succeeds exactly when nothing was recorded |
| LangStrings.TagIterator.ParseInAttributeBlock | src/markdown/lang_string.rs:277-293 | yields, or resumes, and moves exactly as `LexInBlock` |
| LangStrings.TagIterator.ParseAttribute | src/markdown/lang_string.rs:282-285 | yields and moves exactly as `LexAttribute` |
| LangStrings.TagIterator.ParseOutsideAttributeBlock | src/markdown/lang_string.rs:306-349 | yields, or resumes, and moves exactly as `LexOutside` |
| LangStrings.TagIterator.ParseStopped | src/markdown/lang_string.rs:339-348 | yields, or resumes, and moves exactly as `LexStopped` |
| LangStrings.TagIterator.TokenAtEnd | src/markdown/lang_string.rs:347-348 | the token is the rest of the string from its start |
| LangStrings.TagIterator.ParseDelimiter | src/markdown/lang_string.rs:307-344 | consumes the stopping character, then yields, or resumes, and moves exactly as `LexDelimiter` |
| LangStrings.TagIterator.ParseQuoteAfter | src/markdown/lang_string.rs:308-322 | yields and moves exactly as `LexQuoteAfter` |
| LangStrings.TagIterator.ParseAfterComment | src/markdown/lang_string.rs:331-338 | yields, or resumes, and moves exactly as `LexAfterComment` |
| LangStrings.TagIterator.ParseQuoted | src/markdown/lang_string.rs:313-322 | yields and moves exactly as `LexQuoted` |
| LangStrings.TagIterator.Next | src/markdown/lang_string.rs:355-371 | yields and moves exactly as `LexNext` |
| LangStrings.Parse | src/markdown/lang_string.rs:392-482 | the classification of exactly the tokens `Tokens(s)` yields, with the messages it records; the empty string is Rust; a recorded message makes it not Rust |
| LangStrings.RunEnds | src/markdown/lang_string.rs:403 | when `next()` yields nothing the loop is over, with the state it left |
| LangStrings.RunGoesOn | src/markdown/lang_string.rs:403 | when `next()` yields a token, the tokens are that one and those from where it stopped |
| LangStrings.EmptyTokens | src/markdown/lang_string.rs:392-403 | the empty string yields no token and records nothing |
| LangStrings.RustCheckOf | src/markdown/lang_string.rs:11-16 | an error answer carries the messages the tokenizer recorded, never none |
| LangStrings.IsRust | src/markdown/lang_string.rs:11-16 | answers as `RustCheckOf` on the string; the empty string is Rust; an error answer has exactly one message |
| LangStrings.ScanThrough | src/markdown/lang_string.rs:162-170 | a run that nothing ends reaches the end of the string |
| LangStrings.WordToken | src/markdown/lang_string.rs:339-348 | a leading character followed by bareword characters is exactly one token and nothing else |
| LangStrings.RustIsRust | src/markdown/lang_string.rs:11-16 | `is_rust("rust")` says Rust |
| LangStrings.RustTokenIsRust | src/markdown/lang_string.rs:421-424 | the one token `rust` is classified as Rust |
| LangStrings.CustomAloneIsNotRust | src/markdown/lang_string.rs:425-427 | `is_rust("custom")` says not Rust |
| LangStrings.UnclosedQuoteErrs | src/markdown/lang_string.rs:172-180 | a quote never closed makes `is_rust` fail with exactly the "unclosed quote" message |
| LangStrings.UnclosedCommentErrs | src/markdown/lang_string.rs:296-304 | a `(` never closed makes `is_rust` fail with exactly the "unclosed comment" message |
| LangStrings.UnclosedInBlock | src/markdown/lang_string.rs:355-371 | inside a block with no `}` left, the iterator always ends with a message |
| LangStrings.UnclosedBlockErrs | src/markdown/lang_string.rs:323-325 | a `{` never closed makes `is_rust` fail |
| LangStrings.FoldCustom | src/markdown/lang_string.rs:425-427 | `seen_custom_tag` is set exactly by a `custom` token |
| LangStrings.CustomIsNotRust | src/markdown/lang_string.rs:478 | a `custom` token makes the block not Rust |
| LangStrings.ErrorIsNotRust | src/markdown/lang_string.rs:478 | an error makes the block not Rust |
| LangStrings.FoldOther | src/markdown/lang_string.rs:448-458 | `seen_other_tags` is set exactly by a tag that is not a known one |
| LangStrings.NoOtherIsRust | src/markdown/lang_string.rs:478 | without other tags, `custom` or an error the block is Rust |
| LangStrings.FoldKeepsRust | src/markdown/lang_string.rs:373-390 | `rust` starts true and no token clears it before the final conjunction (also lines 403-467) |
| LangStrings.FoldKeepsSeenRust | src/markdown/lang_string.rs:403-467 | once `seen_rust_tags` is set, tokens other than the plain Rust tags keep it set |
| LangStrings.RustTagIsRust | src/markdown/lang_string.rs:421-424 | a `rust` token makes the block Rust when no plain Rust tag follows it and there is no `custom` and no error (also line 478) |
| LangStrings.PlainAfterOtherIsNotRust | src/markdown/lang_string.rs:405-420 | a block that ends with a plain Rust tag after an unknown tag is not Rust, whatever came before (also line 478) |
| LangStrings.RustThenOtherThenShouldPanic | src/markdown/lang_string.rs:405-408 | `rust,foo,should_panic` is not Rust (also lines 421-424, 455-458) |
| LangStrings.StepLists | src/markdown/lang_string.rs:409-420 | one token's effect on the ignore targets, the unknown words, `ignore` and `no_run` (also lines 455-458) |
| LangStrings.NamedTags | src/markdown/lang_string.rs:405-440 | each tag name means its tag |
| LangStrings.IgnorePrefix | src/markdown/lang_string.rs:417 | exactly the words starting with `ignore-` name an ignore target |
| LangStrings.FoldLists | src/markdown/lang_string.rs:403-467 | the loop's lists and flags, each against its definition over the tokens |
| LangStrings.ClassifiedLists | src/markdown/lang_string.rs:472-476 | `ignore-…` targets override `ignore`; `compile_fail` implies `no_run`; unknown words are kept in order (also lines 432-436) |
| LangStrings.TagOf | src/markdown/lang_string.rs:405-458 | the tag each word stands for, tested in the source's order: the exact words, `ignore-` with its target, `edition` with whether the rest is an edition, `E` with four more bytes as a code exactly when they parse as a `u32`, and `Unknown` exactly for a word none of these match |
| LangStrings.EditionDigits | src/markdown/lang_string.rs:21-27 | `Edition::from_str`: one to four digits always parse as an edition, and a string with a character other than a digit (or a leading `+`) never does, `future` aside |
| LangStrings.ErrorCodeStep | src/markdown/lang_string.rs:444-454 | `E` and four digits is recorded as an error code and keeps Rust status; `E` and four bytes that are not a number only counts as another tag |
| ErrorSinks.PadLeft | src/error_sink.rs:401-403 | `{name:>14}`: the name right-aligned with spaces to the width, never truncated |
| ErrorSinks.Indented | src/error_sink.rs:379-391 | every line but the first carries the 16-space indent |
| ErrorSinks.TerminatedLines | src/error_sink.rs:379-391 | lines without line feeds, each terminated by one, split back into the same lines |
| ErrorSinks.AppendLine | src/error_sink.rs:387-388 | appending one terminated line adds exactly that line |
| ErrorSinks.MessageLines | src/error_sink.rs:379-391 | the formatted message splits at line feeds into the message's lines, indented after the first; an empty message formats to nothing |
| ErrorSinks.FormatMessage | src/error_sink.rs:379-391 | the loop builds the formatted message |
| ErrorSinks.PushFields | src/error_sink.rs:272-274 | the loop appends one formatted field per field, in order (also lines 394-399) |
| ErrorSinks.Tally.Inc | src/error_sink.rs:358-366 | exactly the counter of the level goes up by one |
| ErrorSinks.TallyText | src/error_sink.rs:101-132 | nothing is printed exactly when there are no errors and no warnings; otherwise a line of the nonzero counts, errors first, joined by `, `, the noun singular exactly for 1 |
| ErrorSinks.TallyBoth | src/error_sink.rs:111-125 | with both counts the line holds both, joined by `, ` |
| ErrorSinks.FieldsOrder | src/error_sink.rs:344-348 | the fields come out in exactly the reverse of the order they were added, across all frames |
| ErrorSinks.Separated | src/error_sink.rs:256-260 | what a message or report shows starts with a line feed exactly when something was written before (also lines 375-377) |
| ErrorSinks.ErrorSink.constructor | src/error_sink.rs:27-36 | a new sink has no frames, a zero tally, no output and has not been written to |
| ErrorSinks.ErrorSink.WriteStr | src/error_sink.rs:246-254 | the text is appended and the sink marked as written to; frames and tally stay |
| ErrorSinks.ErrorSink.Write | src/error_sink.rs:89-91 | the value is appended and the sink marked as written to |
| ErrorSinks.ErrorSink.SetWrittenTo | src/error_sink.rs:97-99 | only the written-to flag changes |
| ErrorSinks.ErrorSink.Message | src/error_sink.rs:262-277 | appends the separator, the level, the message and the fields seen from the innermost frame out; the level's counter goes up |
| ErrorSinks.ErrorSink.LogReport | src/error_sink.rs:65-67 | appends the report as formatted (its causes, then the fields it carries or else the sink's); the counter of its level, or of errors, goes up (also lines 279-342) |
| ErrorSinks.ErrorSink.EmptySpan | src/error_sink.rs:69-79 | a new empty frame goes on top and the handle remembers its index |
| ErrorSinks.ErrorSink.Span | src/error_sink.rs:81-83 | a new frame holding the one field goes on top (also lines 221-224) |
| ErrorSinks.ErrorSink.Log | src/error_sink.rs:60-63 | an event holding the level and message, not yet shown |
| ErrorSinks.ErrorSink.PrintTally | src/error_sink.rs:101-132 | the tally line is appended, and the sink counts as written to even when the line is empty |
| ErrorSinks.PushChain | src/error_sink.rs:299-330 | the loop over the causes appends each cause's text, with `cause:` keys after the first, and collects the fields their `ReportFields` carry |
| ErrorSinks.CausePiece | src/error_sink.rs:300-329 | one cause as the loop formats it, `<empty message>` for an empty one |
| ErrorSinks.CauseMessage | src/error_sink.rs:318 | a cause given as text shows that text, or `<empty message>` when it is empty, so never nothing |
| ErrorSinks.ChainStep | src/error_sink.rs:299-330 | one more cause extends the text and the collected fields |
| ErrorSinks.Event.constructor | src/error_sink.rs:60-63 | the event holds its sink and the pending message |
| ErrorSinks.Event.IntoReport | src/error_sink.rs:174-188 | the message is taken out, with the sink's current fields, into a report of that level; nothing is written |
| ErrorSinks.Event.Drop | src/error_sink.rs:195-204 | a pending message is written once, as `message` writes it; an event already turned into a report writes nothing |
| ErrorSinks.SinkSpan.constructor | src/error_sink.rs:69-79 | the handle holds its sink and its frame index |
| ErrorSinks.SinkSpan.Add | src/error_sink.rs:226-229 | the field goes at the end of this handle's own frame and nothing else changes |
| ErrorSinks.SinkSpan.Drop | src/error_sink.rs:232-236 | the top frame goes, whichever handle drops, and nothing else changes |

## Left out

- **The markdown tokenizer.** Its events (kind, name, byte offset) are an input, and `Markdown.WellFormed` states the pairing and nesting the tokenizer guarantees.
- **Foreign parsers, as inputs.** rustdoc JSON deserialisation, `syn`, `toml_edit`/`serde`, `RangeMap` and eyre's `chain()` are not modelled. Their outputs are inputs:
  - the index and the paths;
  - the doc fragments and the `#[doc(inline)]` flag;
  - the manifest's feature keys with their comment text;
  - the report chain.
- **I/O.** Running `cargo rustdoc`, reading and writing files, the stderr writer and `ErrorSink::into_inner` are not modelled. The sink's output is a sequence of pieces.
- **Terminal styles.** anstyle escape codes are opaque style pieces. `ErrorSinks.Plain` strips them.
- **Logging.** The `tracing` warnings are not modelled. Of the error sink's `info`/`warn`/`error` wrappers, only `log` is modelled; the wrappers just pass a level.
- **Configuration I/O.** `read_*_config`, `metadata_json`/`metadata_toml` and `warn_about_unused_fields` are left out (serde, toml and tracing). The configuration is modelled from its patches on.
- **Markdown passes in `extract`.** `clean_code_blocks` and `shrink_headings` are left out of the flow of `extract`: they call into the markdown rewriting modelled in `RewriteMarkdown`. A link whose URL fails is replaced by its text; the log warning that goes with it is left out.
- **Finding the marked section.** `FeatureDocsSection::find` is not part of this model. `EditCrateDocs.Replace` takes the found section as input.
- **`Resolver::new`.** It is assembled from the two trees and the crate-to-package map. The cargo metadata lookup by package id is folded into that map.
- **`ErrorSinkSpan::span`.** It is `add` followed by returning the handle, so `ErrorSinks.SinkSpan.Add` covers it.
- **Span handles.** `SinkSpan.Drop` models the source, which pops the top frame whichever handle is dropped. The model does not prove that handles are dropped in stack order. Rust's scoping keeps that order for handles bound to nested scopes, but an explicit `drop` or a handle moved out of its scope can break it, and then the wrong frame is popped.
- **Loops modelled as recursion.** A few loops of the source are recursive functions rather than methods with loops, so they are specified but not modelled step by step. These are the `for` loops over a construct's children and their edits (rewrite_markdown.rs:99-103, 111-115, 124-132), which are `RewriteMarkdown.ChildrenEdits`, and the loop over the fence starts (rewrite_markdown.rs:378-382), which is `RewriteMarkdown.AnyStart`. The loop over the attributes in `parse_doc_frags` (edit_crate_docs.rs:133-190) is not modelled: it walks `syn`'s attributes, and the fragments it builds are an input. `EditCrateDocs.Classify` models the classification of one attribute.
- **The tag iterator's `extra` argument.** The tag iterator is modelled with `extra` present, as `is_rust` calls it, so every error message is recorded. The `extra = None` case, which only sets the error flag, is left out.

Contracts stated more weakly than the source, or under a bound the source does not have:

- ErrorSinks.Tally.Inc: counts are unbounded; `usize` overflow of a tally is not modelled.
- CrateDocs.ItemPath: requires `Climbs(r, id, fuel)`, which says the climb up the child-to-parent map ends. The source loops forever on a cyclic map.
- IndexTree.NewSimple: requires `ResolvesAll`. Every parent the loop reaches must be in the index, since `index[&parent_id]` panics otherwise. The chain of `use`s above each recorded child must also end within one hop per recorded child. Otherwise the source's `continue` repeats forever with the same id, for a `use` without a recorded parent.
- ChildToParent.StructBuild: requires an acyclic item graph, given as a rank. The source has no recursion limit.
- EditCrateDocs.Replace: requires the end of the section to lie inside the combined docs, since the source's `source_map.get(&end).unwrap()` panics otherwise. The model also takes the attributes' byte ranges from the fragments instead of `syn` spans.
- IndexTree.PathTo: requires `Ends`, that the walk up the parent links from the id leaves the tree within as many steps as the tree has entries. On a parent cycle `path_to` (resolver/index.rs:84-98) loops forever. The model does not prove `Ends` for the trees `IndexTree.NewSimple` builds, since the chosen parents are an input.
- IndexTree.PathOfShape: requires `Ends`, as `IndexTree.PathTo` does.
- Resolver.ItemPath: requires `Resolver.Valid`, which asks `Ends` of every id the index tree holds. It is proved for the summaries tree (`PathsTree.BuiltIsValid`), not for the index tree, as under `IndexTree.PathTo`.
- Resolver.ItemPathOf: requires `Resolver.Valid`, as `Resolver.ItemPath` does.
- Resolver.ItemUrl: requires `Resolver.Valid`, as `Resolver.ItemPath` does.
- Resolver.ItemUrlShape: requires `Resolver.Valid`, as `Resolver.ItemPath` does.
- RewriteMarkdown.ProcessOne: uses the corrected `RewriteMarkdown.HeadingEdits` and `RewriteMarkdown.IndentedEdits`, so it does not state what the source does on a closed ATX heading or a hidden last line of an indented block (see "## Findings"; the as-written arms are `RewriteMarkdown.HeadingEditsAsWritten` and `RewriteMarkdown.IndentedEditsAsWritten`).
- RewriteMarkdown.Rewrite: built on `RewriteMarkdown.ProcessOne`, so it uses the corrected arms as well.
- RewriteMarkdown.RewriteMarkdown: built on `RewriteMarkdown.Rewrite`, so it uses the corrected arms as well.
- CrateDocs.ItemOf: uses the corrected `CrateDocs.SummaryParent`, which gives a crate root no parent; the source gives it the empty path (`CrateDocs.ItemAsWritten`, see "## Findings").
- RewriteMarkdown.EditsAt: uses the corrected heading and indented-block arms, as `RewriteMarkdown.ProcessOne` does.
- RewriteMarkdown.EditInsideHeadingPanics: stated on the corrected `RewriteMarkdown.HeadingEdits`. It describes the code as written only for a heading with a single hash run, where the two arms agree (`RewriteMarkdown.HeadingArmsAgree`); on a closed heading the code as written does not panic this way.
- CrateDocs.ItemPathShape: built on the corrected `CrateDocs.ItemOf`. For a link to a crate-root summary it states a path without the nameless module the source pushes (`CrateDocs.RootSummaryAsWritten`).
- CrateDocs.ItemPath: built on the corrected `CrateDocs.ItemOf`, as `CrateDocs.ItemPathShape` is.
- CrateDocs.Visit: built on the corrected `CrateDocs.ItemOf`, as `CrateDocs.ItemPathShape` is.
- CrateDocs.ItemPathStep: built on the corrected `CrateDocs.ItemOf`, as `CrateDocs.ItemPathShape` is.
- CrateDocs.ItemUrl: built on the corrected `CrateDocs.ItemOf`. For a crate-root summary it gives `https://doc.rust-lang.org/alloc/` where the source builds `https://docs.rs//latest//alloc/` (`CrateDocs.RootSummaryAsWritten`).
- CrateDocs.LinkEdit: its URL comes from `CrateDocs.ItemUrl`, so it uses the corrected `CrateDocs.ItemOf` as well.
- CrateDocs.RewriteLinks: built on `CrateDocs.LinkEdit`, so it uses the corrected `CrateDocs.ItemOf` as well.
- EditCrateDocs.Classify: its error quotes the corrected three-character `EditCrateDocs.ShownStart`; the source quotes two characters (`EditCrateDocs.ShownStartAsWritten`, see "## Findings").
- SimpleIndex.Children: follows a chain of glob `use`s for at most `fuel` steps and gives no children once the fuel runs out. On a cyclic glob chain the source recurses without bound instead.
- ErrorSinks.SinkSpan.Add: requires the handle's frame to be on the stack. The source panics on `spans[index]` when the frame was already popped (error_sink.rs:226-229), which the model excludes.
- ChildToParent.ChildToParent: requires an acyclic rank over the whole index, as `ChildToParent.StructBuild` does. The source also ends when a cycle exists but cannot be reached from the root.
- ChildToParent.CleanMap: requires the same acyclic rank, so that each climb up the recorded `use`s ends.
- FeatureDocs.Parse: the manifest is a pre-parsed `Features` value. TOML syntax errors are the parser's and are not modelled.

## Findings

| source | as written | input that shows it | evidently intended | confidence | as-written member | corrected member |
|---|---|---|---|---|---|---|
| src/extract_crate_docs/rewrite_markdown.rs:120-135 | In an indented code block, a hidden last line is removed through the end of its line (lines 267-284). That end lies past the block, where the closing fence was already inserted. | The markdown `    # x` followed by a line feed. | The block is wrapped as a Rust fence, and the hidden line is removed only up to the block's end. | not executed | RewriteMarkdown.HiddenLastLinePanics | RewriteMarkdown.HiddenLastLineWrapped |
| src/extract_crate_docs/rewrite_markdown.rs:80-90 | `child()` (lines 296-298) picks the last matching child, so a closed ATX heading has its closing hash run rewritten. | `# a #`, with headings shrunk by one level. | The opening run becomes `##`, giving `## a #`. | not executed | RewriteMarkdown.ClosedHeadingKeepsLevel | RewriteMarkdown.ClosedHeadingShrunk |
| src/extract_crate_docs.rs:264-269 | `pop` (lines 276-278) gives a one-segment summary path, a crate root, the empty parent path. `item_path` pushes a nameless module for it. | A link to the crate `alloc`, whose summary path is `["alloc"]`. | A crate root has no parent, and the link goes to `https://doc.rust-lang.org/alloc/`. | not executed | CrateDocs.RootSummaryAsWritten | CrateDocs.RootSummaryUrl |
| src/edit_crate_docs.rs:173-177 | The error message quotes the attribute up to the byte offset of its third character, which is two characters. | The attribute `#! [doc = "x"]`, quoted as `#!`. | The first three characters are quoted: `#! `. | not executed | EditCrateDocs.ShownStartDropsThirdChar | EditCrateDocs.ShownStart |

The rest of the model uses the corrected definitions (each member built on one has its own line under "## Left out"):

- `RewriteMarkdown.IndentedEdits` and `RewriteMarkdown.HeadingEdits` in the rewrite;
- `CrateDocs.SummaryParent` in `CrateDocs.ItemOf`;
- `EditCrateDocs.ShownStart` in `EditCrateDocs.Classify`.

The as-written behaviour is kept beside each one: `RewriteMarkdown.IndentedEditsAsWritten`, `RewriteMarkdown.HeadingEditsAsWritten`, `CrateDocs.ItemAsWritten` and `EditCrateDocs.ShownStartAsWritten`.

## Behaviour worth knowing

These are behaviours of the code as written. None is a finding, since either it may be intended or there is no simple correction. The model keeps them and proves each one.

- **A link inside an ATX heading without a closing hash run panics.** The heading is processed first, and its hash edit cuts the replacer's untouched prefix to the start of the heading. The later link edit then no longer fits (`RewriteMarkdown.EditInsideHeadingPanics`). The lemma is stated on the corrected `RewriteMarkdown.HeadingEdits`, which for a heading with a single hash run issues the same edit as the code as written (`RewriteMarkdown.HeadingArmsAgree`). On a closed heading such as `# a [l](u) #` the code as written edits the closing run instead, which cuts the prefix only to that run, so the link edit still fits there.
- **`rust` does not always win.** A plain Rust tag that follows an unknown tag makes the block not Rust, even after `rust`; `rust,foo,should_panic` is not Rust (`LangStrings.PlainAfterOtherIsNotRust`).
- **Loose error codes.** `E` followed by four more bytes is an error code whenever they parse as a `u32`, so `E+123` counts. The length is measured in UTF-8 bytes (`LangStrings.TagOf`).
- **`print_tally` always marks the sink.** The sink counts as written to even when the tally line is empty (`ErrorSinks.ErrorSink.PrintTally`).
- **Visibility is unused.** In `child_to_parent` the visibility check is commented out, so visibility never changes the table (`ChildToParent.NodeIgnoresVisibility`).
- **A plain `use` in `child_to_parent`.** It takes its target as its only child, even when it is a glob (`ChildToParent.ChildrenAsSimple`).
- **`lib` and `bin` travel together.** When a patch sets either, both are replaced (`Config.ApplyBuild`).
- **A fenced block without info.** `rust` is inserted after the second fence run the scan meets. A block with fewer runs, such as an unclosed one, is left alone (`RewriteMarkdown.FencedEditsShape`).
- **Section type drift.** `FeatureDocsSection` holds its section as a byte range, although `markdown::find_section` returns a `Section` with two spans. The model follows the range.
