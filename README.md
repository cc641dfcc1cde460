# loss72-platemaker, modelled in Dafny

loss72-platemaker is a static-site generator for a blog. Articles are Markdown
files under a content directory. Each sits in a group directory named by year
and month (`2024/03/post.md`), with a TOML front matter between `+++` markers.

For each article the generator does four things:

- It tokenises the Markdown and runs every event through a chain of
  sub-parsers:
  - front matter;
  - fenced code blocks, which are syntax-highlighted;
  - footnotes, which are numbered and gathered into a list at the end;
  - text, where `:shortcode:` emoji become images.
- It renders the HTML.
- It fills `${name}` placeholders of an HTML template with the article's title,
  date, slug and content.
- It plans and writes the output tree: directories first, then files. Asset
  files are copied beside it.

This project models that core: the structures and the decisions the code
makes. It proves what the code promises about them.

Module layout:

- **Shared pieces** (`wrappers.dfy`, `strings.dfy`, `paths.dfy`, `sorting.dfy`,
  `events.dfy`): the library behaviour the core relies on.
  - `Path::join`, `parent`, `file_name`, `extension`, `strip_prefix` and the
    derived order on paths.
  - `usize::from_str` and `to_string`, zero-padded formatting and
    `{:x}` hexadecimal.
  - Stable sorting by key, and `sort` followed by `dedup`.
  - The Markdown event stream, as an abstract datatype.
- **Markdown** (`control.rs`, `sub_parser*.rs`, `full_service.rs`, `parse.rs`,
  `emoji.rs`):
  - each sub-parser is a class whose fields the methods update, specified by a
    pure step function on its state;
  - folds of those steps over event streams carry the properties;
  - `MarkdownParserIter` is a class whose `Next` is tied to a pure iterator
    step.
- **Template** (`template.dfy`): placeholders recognised by a scanner for the
  two syntaxes the program builds, `${ name }` and `:name:`. Fill, partial fill
  and the list of used names are defined on the scanner's pieces.
- **Structure** (`structure.dfy`, `template_files.dfy`): classifying the
  content tree. A path is read as a group, article, asset or asset directory.
  `ArticleGroup::scan` and `ContentDirectory::new` are defined over a given
  directory walk and directory listing.
- **Construct** (`construct.dfy`):
  - a `Construction` tree is flattened into a `ConstructionPlan`, a class with
    `merge` and `prefix_dirs` in place;
  - executing the plan, and copying files, issue file-system actions against a
    given failure oracle, proved against a pure `Run`.
- **Widgets** and **Website** (`widgets.dfy`, `website.dfy`): the article
  widgets and the page generation that produces the output tree.

## Model

| member | source | states |
|---|---|---|
| Control.Dec | crates/markdown/src/parse/control.rs:63-69 | `count - 1` on the `u8` counter: one less for a positive count (0 wraps to 255 as a release build computes it) |
| Control.UpdateBy | crates/markdown/src/parse/control.rs:12-21 | merging two `Next` values aborts exactly when both carry an ignore; otherwise the later ignore wins and the later replacement wins over the earlier one |
| Control.NextEvent | crates/markdown/src/parse/control.rs:23-25 | the event handed on is the replacement when there is one, else the original event |
| Control.MergeAllMeaning | crates/markdown/src/parse/control.rs:12-21 | folding `update_by` over a chain aborts iff two adjacent answers both ask for an ignore; else the last replacement wins and the ignore is the last answer's own (an earlier ignore is dropped) |
| Control.UpdateByDropsEarlierIgnore | crates/markdown/src/parse/control.rs:18-19 | an ignore requested earlier is lost when the next answer has none |
| Control.ForNextSuppressesExactly | crates/markdown/src/parse/control.rs:52-62 | `ForNext(n)` suppresses exactly the next `n` events of any stream and none after them |
| Control.NothingSuppressed | crates/markdown/src/parse/control.rs:52-55 | with no pending ignore, or `ForNext(0)`, no event is suppressed |
| Control.ForNextIfSuppresses | crates/markdown/src/parse/control.rs:63-70 | `ForNextIf(n, p)` tests only the first event against `p`, then suppresses the following `n - 1` unconditionally |
| Control.ContinueControls | crates/markdown/src/parse/control.rs:94-100 | continuing with `use_next` leaves the event as it is and, merged after an earlier value, keeps its replacement but drops its ignore; `use_next_with(n)` merged into the default is `n` |
| SubParsers.ChainStepIsReference | crates/markdown/src/parse/sub_parser.rs:29-37 | the chain with merged `Next` values equals the stage-by-stage reading: the first sub-parser to break decides, else the text sub-parser's answer; the merge itself never aborts |
| SubParsers.ChainContinueIsMerge | crates/markdown/src/parse/sub_parser.rs:29-37 | when the chain continues, its `Next` is the in-order merge of the four answers, which is the text sub-parser's |
| SubParsers.CodeBlockShields | crates/markdown/src/parse/sub_parser.rs:31-34 | inside a fenced block every event is answered by the code-block sub-parser, and the footnote and front-matter states are untouched |
| SubParsers.SubParserChain.ReceiveEvent | crates/markdown/src/parse/sub_parser.rs:29-37 | on the four sub-parser objects: aborts when the chain function aborts, else gives its answer and leaves every sub-parser in the state it computes |
| SubParsers.SubParserChain.Finalize | crates/markdown/src/parse/sub_parser.rs:39-45 | finalizing the chain yields exactly the footnote sub-parser's list, or nothing |
| TextParser.TextControl | crates/markdown/src/parse/sub_parser/text.rs:20-32 | a text event (and only a text event) is replaced by its emoji-replaced HTML and arms the soft-break ignore; every other event continues unchanged |
| TextParser.SoftBreakIgnoreMeaning | crates/markdown/src/parse/sub_parser/text.rs:38-40 | the armed ignore suppresses the next event exactly when it is a soft break, and is then used up |
| TextParser.TextEmojiTag | crates/markdown/src/parse/sub_parser/text.rs:78-95 | the tag is an image whose source is the emoji's asset URL, with the `emoji` class |
| TextParser.EmojiReplacer.Replace | crates/markdown/src/parse/sub_parser/text.rs:49-76 | the text with every shortcode replaced; the cache keeps agreeing with the data set, gains exactly the shortcodes of the text, and only shortcodes not seen before are looked up, each once, in order |
| TextParser.TextSubParser.ReceiveEvent | crates/markdown/src/parse/sub_parser/text.rs:20-32 | answers as `TextControl`; the cache grows by the text's shortcodes and is unchanged for other events |
| Emoji.ShortcodeBuilds | crates/markdown/src/emoji.rs:8-9 | building the `:name:` placeholder always succeeds, so its `unwrap` never panics |
| Emoji.CodepointsRoundTrip | crates/markdown/src/emoji.rs:36-48 | the asset name (codepoints in lower-case hex joined by `-`) determines the emoji: decoding it gives the emoji back |
| Emoji.EmojiToHtmlTag | crates/markdown/src/emoji.rs:36-48 | the tag starts with the image source at the emoji's asset URL and ends with the emoji as `alt` text |
| Emoji.UnresolvedKeepsShortcode | crates/markdown/src/emoji.rs:21-26 | an unknown shortcode becomes a comment followed by the shortcode exactly as written between its colons |
| Emoji.LookupCached | crates/markdown/src/emoji.rs:17-29 | one shortcode through the cache: the value is what resolving it gives, a hit exactly when cached, and the cache gains just that shortcode |
| Emoji.FillCached | crates/markdown/src/emoji.rs:7-34 | the cached replacement equals the uncached fill; the cache stays sound, holds the shortcodes used, and looks up each new one once in order of first use |
| Emoji.ReplaceEmojiFromShortcode | crates/markdown/src/emoji.rs:7-34 | the content with every shortcode replaced by its tag or its unresolved marker, each distinct shortcode looked up once |
| Emoji.ReplaceNeverFails | crates/markdown/src/emoji.rs:29-33 | the filler always has a value, so the partial fill reports no failing name and the `unwrap` never panics |
| Frontmatter.FrontmatterStep | crates/markdown/src/parse/sub_parser/frontmatter.rs:25-55 | outside a block only `+++` is taken (and aborts if a body was already captured); inside, texts are captured and the end marker closes, anything else aborts; every taken event is discarded |
| Frontmatter.FrontmatterRunState | crates/markdown/src/parse/sub_parser/frontmatter.rs:25-59 | after any accepted stream the parser is inside a block iff the last marker opened one, and the body is the concatenation of the texts inside blocks, or nothing |
| Frontmatter.FrontmatterRunAnswers | crates/markdown/src/parse/sub_parser/frontmatter.rs:25-55 | every marker and every event inside a block is removed from the output; every other event goes on |
| Frontmatter.FrontmatterSubParser.ReceiveEvent | crates/markdown/src/parse/sub_parser/frontmatter.rs:25-55 | on the fields: aborts as the step does, else answers and updates the fields as the step does |
| CodeBlock.FindLanguage | crates/markdown/src/parse/sub_parser/code_block.rs:89-101 | plain text for an empty language, else the syntax of that name, else of that extension, else plain text with a warning, which is logged exactly in the last case |
| CodeBlock.CodeBlockStep | crates/markdown/src/parse/sub_parser/code_block.rs:27-62 | idle, only a fenced start is taken; in a block, texts become highlighted HTML and the end tag closes (an empty block becomes an empty highlighted block); any other event in a block aborts |
| CodeBlock.OpenBlockRun | crates/markdown/src/parse/sub_parser/code_block.rs:32-47 | an opened block fed texts highlights each in the block's language and records that it has content |
| CodeBlock.FencedBlockRun | crates/markdown/src/parse/sub_parser/code_block.rs:27-62 | a whole fenced block: start removed, each text highlighted, end removed or standing for an empty highlighted block, and the parser idle again |
| CodeBlock.CodeBlockSubParser.ReceiveEvent | crates/markdown/src/parse/sub_parser/code_block.rs:27-62 | on the fields: aborts as the step does, else answers and leaves the parse state as the step does |
| Footnote.Position | crates/markdown/src/parse/sub_parser/footnote.rs:63-73 | the index of the first reference entry with the id, or none when no entry has it |
| Footnote.AddReference | crates/markdown/src/parse/sub_parser/footnote.rs:62-83 | the entry of the id, appended with count one when new, has its count raised by one; nothing else changes; the index returned is that entry's |
| Footnote.RefIdsAfter | crates/markdown/src/parse/sub_parser/footnote.rs:62-83 | after counting a run of references there is one entry per distinct id, in order of first occurrence |
| Footnote.RefCountsAfter | crates/markdown/src/parse/sub_parser/footnote.rs:75-76 | each entry's count is the number of references to its id |
| Footnote.RefsAfterDistinct | crates/markdown/src/parse/sub_parser/footnote.rs:62-83 | every count is at least one and no id has two entries |
| Footnote.ReferenceNumbering | crates/markdown/src/parse/sub_parser/footnote.rs:62-83 | the j-th reference is numbered by its id's place in order of first occurrence, and its anchor carries how many references to that id there were so far, itself included |
| Footnote.DefinitionBodyStep | crates/markdown/src/parse/sub_parser/footnote.rs:169-186 | the end tag files the open definition after the earlier ones; any other event joins its body; references are untouched |
| Footnote.FootnoteStep | crates/markdown/src/parse/sub_parser/footnote.rs:96-110 | inside a definition every event is buffered and discarded; a definition start opens one; a reference outside is counted and becomes HTML; anything else goes on |
| Footnote.FootnoteRunState | crates/markdown/src/parse/sub_parser/footnote.rs:96-110 | from the initial state a definition is open exactly when the stream left one open, and the references are those outside definitions, counted in order |
| Footnote.FootnoteRunAnswers | crates/markdown/src/parse/sub_parser/footnote.rs:96-110 | every event inside a definition and every definition start is removed, every reference outside becomes HTML, every other event goes on |
| Footnote.DefinitionRun | crates/markdown/src/parse/sub_parser/footnote.rs:103-106 | a whole definition is filed with its body verbatim (references in it not counted) and all its events are removed |
| Footnote.FindRef | crates/markdown/src/parse/sub_parser/footnote.rs:126-139 | the first reference entry for an id with its index, found exactly when `position` finds one |
| Footnote.SortItems | crates/markdown/src/parse/sub_parser/footnote.rs:126-139 | each definition paired with its index and its first reference entry |
| Footnote.CmpIsKeyOrder | crates/markdown/src/parse/sub_parser/footnote.rs:33-59 | the comparator orders by one key (reference index, else entry count plus definition index) and equality is equality of keys, so a stable sort by it is a stable sort by the key |
| Footnote.CmpAgreesWithEq | crates/markdown/src/parse/sub_parser/footnote.rs:33-59 | `cmp` returns equal exactly when `eq` holds, and is antisymmetric |
| Footnote.FootnoteOrder | crates/markdown/src/parse/sub_parser/footnote.rs:126-139 | the list is a reordering of all definitions: referenced ones first by reference index, then unreferenced in definition order, and one id defined twice keeps definition order |
| Footnote.ItemReference | crates/markdown/src/parse/sub_parser/footnote.rs:141-155 | a definition finds an entry exactly when its id was referenced; the entry's index is the id's place by first occurrence and its count the number of references, one back-link each |
| Footnote.Backlinks | crates/markdown/src/parse/sub_parser/footnote.rs:147-155 | one back-link per reference to the id |
| Footnote.FinalizeNone | crates/markdown/src/parse/sub_parser/footnote.rs:112-119 | `finalize` (Footnote.FinalizeEvents): there is a list exactly when some definition was seen, filed or still open |
| Footnote.ListEvents | crates/markdown/src/parse/sub_parser/footnote.rs:122-160 | the list is the aside opening, each sorted entry's events in order, and the aside closing |
| Footnote.FootnoteSubParser.AddFootnoteReference | crates/markdown/src/parse/sub_parser/footnote.rs:62-83 | on the fields: the references become `AddReference`'s result, the HTML carries the id, new count and ordinal, and the definitions are unchanged |
| Footnote.FootnoteSubParser.ProcessDefinitionBody | crates/markdown/src/parse/sub_parser/footnote.rs:169-186 | on the fields, the definition-body step |
| Footnote.FootnoteSubParser.ReceiveEvent | crates/markdown/src/parse/sub_parser/footnote.rs:96-110 | on the fields, the step: the new state and the answer of `FootnoteStep` |
| Footnote.FootnoteSubParser.Finalize | crates/markdown/src/parse/sub_parser/footnote.rs:112-163 | the list as `FinalizeEvents` gives it; the open definition is filed and every definition's events have moved into the list |
| FullService.TomlStep | crates/markdown/src/parse/full_service.rs:172-193 | after a front-matter start only a text may come, which is stored; then only the end marker, which returns to content; anything else aborts, and all of them are discarded |
| FullService.ContentStep | crates/markdown/src/parse/full_service.rs:144-166 | in content a front-matter or fenced start is dropped and switches state, a text arms the soft-break ignore; exactly these are answered and nothing else changes the state |
| FullService.SyntaxStep | crates/markdown/src/parse/full_service.rs:195-249 | after a fenced start the end tag closes an empty block, a text is highlighted and then only the end tag may come; any other event inside aborts |
| FullService.AppendToLast | crates/markdown/src/parse/full_service.rs:252-265 | the events join the body of the last definition and the others are untouched |
| FullService.FootnoteStep | crates/markdown/src/parse/full_service.rs:251-295 | inside a definition events join the last one's body (aborting iff there is none) and the end tag returns to content; outside, a reference is counted and a definition start opens a definition |
| FullService.ProcessByState | crates/markdown/src/parse/full_service.rs:405-409 | which step answers: front matter and code blocks their own, a definition only the footnote step, content the content step when it can, else the footnote step |
| FullService.EventStep | crates/markdown/src/parse/full_service.rs:395-423 | a pending ignore that suppresses the event yields nothing; otherwise the steps' answer decides the batch, and an event nobody answers passes unchanged |
| FullService.TextDropsSoftBreak | crates/markdown/src/parse/full_service.rs:144-166 | a text in content passes through and drops a soft break right after it, after which the state is as before |
| FullService.FrontmatterSequence | crates/markdown/src/parse/full_service.rs:172-193 | start marker, text and end marker yield nothing, store the text as front matter and return to content |
| FullService.FrontmatterNeedsText | crates/markdown/src/parse/full_service.rs:172-182 | after a front-matter start anything but a text aborts |
| FullService.FrontmatterNeedsEnd | crates/markdown/src/parse/full_service.rs:183-193 | after the front-matter text anything but the end marker aborts |
| FullService.CodeBlockSequence | crates/markdown/src/parse/full_service.rs:195-249 | a fenced block with one text becomes the highlighted HTML and the state returns to content |
| FullService.EmptyCodeBlock | crates/markdown/src/parse/full_service.rs:198-201 | an empty fenced block yields nothing at all |
| FullService.CodeBlockNeedsEnd | crates/markdown/src/parse/full_service.rs:237-246 | after the highlighted text anything but the end tag aborts |
| FullService.DefinitionBodyRun | crates/markdown/src/parse/full_service.rs:252-265 | inside a definition every event up to the end tag is buffered verbatim into the last definition and yields nothing |
| FullService.DefinitionSequence | crates/markdown/src/parse/full_service.rs:251-295 | a whole definition yields nothing and files its body, as written, under its id |
| FullService.ReferenceAgrees | crates/markdown/src/parse/full_service.rs:267-286 | a reference in content is numbered, counted and rendered exactly as the footnote sub-parser does |
| FullService.EventStepKeepsWf | crates/markdown/src/parse/full_service.rs:251-295 | in a definition there is always a last definition to buffer into, every step keeps that, so the footnote step never aborts |
| FullService.FinalizationListShape | crates/markdown/src/parse/full_service.rs:297-367 | the finalization list is empty exactly without definitions, otherwise the footnote sub-parser's list |
| FullService.Consume | crates/markdown/src/parse/full_service.rs:395-423 | one event through the steps from the iterator state: aborts as `EventStep` does, else its state and batch |
| FullService.FinalizesWhenExhausted | crates/markdown/src/parse/full_service.rs:374-382 | with tokens and queue exhausted the first call finalizes, queues the list without its first event and returns that event unprocessed, or nothing without definitions |
| FullService.OnlyFinalizesWhenExhausted | crates/markdown/src/parse/full_service.rs:373-424 | while tokens or queued events remain a call never finalizes |
| FullService.FinalizedOnce | crates/markdown/src/parse/full_service.rs:373-424 | once finalized it stays so, the queue only shrinks from the front, and with both exhausted every call returns nothing and changes nothing |
| FullService.QueuedEventsAreProcessed | crates/markdown/src/parse/full_service.rs:411-423 | queued events go through the steps like tokens |
| FullService.MarkdownParserIter.UpdateContentParse | crates/markdown/src/parse/full_service.rs:144-166 | on the fields, the content step; the iterator position and queue are untouched |
| FullService.MarkdownParserIter.UpdateTomlParse | crates/markdown/src/parse/full_service.rs:172-193 | on the fields, the front-matter step |
| FullService.MarkdownParserIter.UpdateSyntaxhighlightParse | crates/markdown/src/parse/full_service.rs:195-249 | on the fields, the code-block step |
| FullService.MarkdownParserIter.UpdateFootnoteParse | crates/markdown/src/parse/full_service.rs:251-295 | on the fields, the footnote step |
| FullService.MarkdownParserIter.AddFootnoteReference | crates/markdown/src/parse/full_service.rs:267-286 | the references become `AddReference`'s result and the HTML names the id, count and ordinal; no other field changes |
| FullService.MarkdownParserIter.Steps | crates/markdown/src/parse/full_service.rs:405-409 | the `or_else` chain of the four steps, as `Process` |
| FullService.MarkdownParserIter.ProcessEvent | crates/markdown/src/parse/full_service.rs:395-423 | one event: the batch and state of `EventStep` |
| FullService.MarkdownParserIter.Finalization | crates/markdown/src/parse/full_service.rs:297-367 | the queue becomes the footnote list and the definitions' events are moved out |
| FullService.MarkdownParserIter.Next | crates/markdown/src/parse/full_service.rs:373-424 | `Iterator::next` on the object: aborts as `IterNext` does, else the new state and answer it gives |
| ArticleParse.StripMd | crates/markdown/src/parse.rs:52 | one trailing `.md` removed if present, otherwise the name as it is |
| ArticleParse.StripMdOnce | crates/markdown/src/parse.rs:52 | only one `.md` is removed from a doubled suffix |
| ArticleParse.PathIntoGroupAndSlug | crates/markdown/src/parse.rs:44-55 | fails with `InvalidStructure` iff the file is not directly in its group directory; else the padded group string and the file name without `.md` |
| ArticleParse.ArticleFilesHaveIdentity | crates/markdown/src/parse.rs:44-55 | every file classified as an article gets a group and a non-empty slug whose name is the slug plus `.md` |
| ArticleParse.GroupStringsIdentify | crates/markdown/src/parse.rs:49 | with years below 10000 and months below 100, equal group strings mean the same group |
| ArticleParse.ParseMarkdown | crates/markdown/src/parse.rs:63-73 | fails with `NoFrontmatter` iff no front matter was captured; else the front matter and the HTML |
| ArticleParse.ParseTomlToMetadata | crates/markdown/src/parse.rs:31-42 | the metadata iff deserialising succeeds, else `InvalidToml` with the message |
| ArticleParse.MakeArticleFromMarkdown | crates/markdown/src/parse.rs:31-42 | location checked first, then the front matter, then its TOML, the first failure answered; on success the group, slug, metadata and HTML from each |
| ArticleParse.ClassifiedArticleErrors | crates/markdown/src/parse.rs:31-42 | for a file classified as an article only the front matter can make the parse fail, and the slug plus `.md` is its name |
| Template.FromRegex | crates/template/src/lib.rs:59-68 | accepted iff the regex has a group named `name`, kept unchanged; else `CaptureGroupNotFound` |
| Template.FromStrs | crates/template/src/lib.rs:27-57 | for delimiters the regex reads literally once `[ ] { } ( ) ^ $` are escaped, the regex builds, has the `name` group and passes `from_regex`, for the given syntax |
| Template.LazyPlaceholderRoundTrip | crates/template/src/lib.rs:27-97 | a placeholder written with the delimiters given to `from_strs` is read back as one used name, the trimmed text in between, and filled with the filler's value for it |
| Template.ScanRoundTrip | crates/template/src/lib.rs:71-97 | the scanner loses nothing: putting the pieces back together gives the text |
| Template.ScanFromShape | crates/template/src/lib.rs:39-54 | every piece is one literal character or a well-shaped placeholder: start delimiter, end character, a trimmed name without the end character (lazy rule) or a non-empty run of allowed characters |
| Template.MatchAtShape | crates/template/src/lib.rs:39-54 | a match at a position spans the start delimiter to the end character and its name has that shape |
| Template.Failing | crates/template/src/lib.rs:99-127 | the names the filler has no value for, in order and no more of them than names |
| Template.FailingEmpty | crates/template/src/lib.rs:99-127 | no failing name iff the filler has a value for every used name |
| Template.FailingMembers | crates/template/src/lib.rs:99-127 | a name fails iff it is used and the filler has no value for it |
| Template.PartiallyFill | crates/template/src/lib.rs:99-127 | the filled text iff every used name has a value, and then the same text a full fill gives; else exactly the failing names, in order, duplicates kept |
| Template.PartialFillComplete | crates/template/src/lib.rs:83-127 | when the filler knows every name, the partial fill equals the full fill |
| Template.FillWithoutHoles | crates/template/src/lib.rs:83-97 | a text without placeholders is left as it is |
| Template.FillWithOwnText | crates/template/src/lib.rs:83-97 | `fill_placeholders` (Template.Fill) changes only the placeholders: filling each with its own text gives the text back |
| Template.ParseUsedWritten | crates/template/src/lib.rs:71-81 | every name `parse_used_placeholders` (Template.ParseUsed) yields is written in the text as a well-shaped placeholder |
| StructureTemplate.TemplateFilePaths | crates/structure/src/template.rs:9-11 | each of the three template names as a one-component path whose file name is that name |
| StructureTemplate.IsTemplateFile | crates/structure/src/template.rs:13-15 | a path is a template file iff its file name is one of the template names |
| StructureTemplate.TemplateFileByName | crates/structure/src/template.rs:13-15 | only the file name counts, not the directories above it or whether the path is absolute |
| StructureTemplate.NoFileNameNoTemplate | crates/structure/src/template.rs:13-15 | a path without a file name is never a template |
| StructureTemplate.TemplatePathsAreTemplates | crates/structure/src/template.rs:9-15 | every path `template_file_paths` yields is recognised as a template, and the three differ |
| Structure.GroupLessIsStrictTotalOrder | crates/structure/src/lib.rs:43-47 | the derived order on groups (year, then month) is a strict total order |
| Structure.FromPathMeaning | crates/structure/src/lib.rs:73-89 | `from_path` (Structure.FromPath): a path names a group iff its first two names parse as `usize` (so it is relative), and the suffix is the rest in order |
| Structure.GroupDirPath | crates/structure/src/lib.rs:63-67 | year and month in plain decimal as two components |
| Structure.GroupDirPathRoundTrip | crates/structure/src/lib.rs:63-89 | anything below a group's directory path is read back as that group, with the rest as suffix |
| Structure.GroupDirFlatPath | crates/structure/src/lib.rs:69-71 | the zero-padded group string as one component |
| Structure.GroupStringDecode | crates/structure/src/lib.rs:69-71 | with year below 10000 and month below 100 the group string is six digits whose first four give the year and last two the month |
| Structure.GroupStringInjective | crates/structure/src/lib.rs:69-71 | within those bounds distinct groups have distinct group strings |
| Structure.GroupStringCollision | crates/structure/src/lib.rs:69-71 | beyond them two distinct groups share a group string |
| Structure.CollectAll | crates/structure/src/lib.rs:54 | every value iff all succeeded, else the first error |
| Structure.WalkUnderRoot | crates/structure/src/lib.rs:57 | a successful walk lies below the root, so the `unwrap` on `strip_prefix` never panics |
| Structure.GroupsOfMeaning | crates/structure/src/lib.rs:56-59 | a group is found iff some walked directory is exactly its two numeric names below the root |
| Structure.Scan | crates/structure/src/lib.rs:50-61 | the first walk error, or exactly the groups of directories two numeric names below the root, nothing deeper or shallower, no file |
| Structure.ArticleFileMeaning | crates/structure/src/lib.rs:117-130 | `ArticleFile::from_file` (Structure.ArticleFileFromFile): a file is an article iff below the root it is `year/month/name` with extension `md` |
| Structure.AssetFileAsWrittenMeaning | crates/structure/src/lib.rs:151-164 | (as written, Structure.AssetFileFromFileAsWritten) a file is an asset iff below the root it is `year/month/assets/...` with at least two names inside `assets` |
| Structure.AssetFileAsWrittenMissesDirectChild | crates/structure/src/lib.rs:154-163 | the written `> 2` test rejects `2024/03/assets/img.png`, which the intended rule accepts |
| Structure.AssetFileMeaning | crates/structure/src/lib.rs:151-164 | (corrected) a file is an asset iff below the root it is `year/month/assets/...` with at least one name inside `assets` |
| Structure.AssetRootDirMeaning | crates/structure/src/lib.rs:185-198 | `AssetRootDir::from_dir` (Structure.AssetRootDirFromDir): a directory is an asset root iff below the root it is exactly `year/month/assets` |
| Structure.ClassesDisjoint | crates/structure/src/lib.rs:117-198 | no file is both an article and an asset, and an asset root is never an article |
| Structure.ListAll | crates/structure/src/lib.rs:19-28 | the entries of all directories iff each can be listed, else the first failure |
| Structure.ArticlesOf | crates/structure/src/lib.rs:29-33 | exactly the listed files that classify as articles |
| Structure.SortedGroups | crates/structure/src/lib.rs:13-15 | strictly ascending, so without duplicates, and holding exactly the scanned groups |
| Structure.PaddedMonthFailsAsWritten | crates/structure/src/lib.rs:12-40 | (as written, Structure.NewContentDirectoryAsWritten) for a content tree `2024/03/foo.md` the written construction opens `2024/3` and fails with NotFound |
| Structure.PaddedMonthSucceeds | crates/structure/src/lib.rs:12-40 | (corrected) the same tree gives group (2024, 3) and its one article |
| Structure.NewContentDirectory | crates/structure/src/lib.rs:12-40 | (corrected) groups strictly sorted and exactly those scanned; articles come from the directories the scan found |
| Structure.NewContentDirectorySucceeds | crates/structure/src/lib.rs:12-40 | (corrected) a successful walk whose directories can all be listed always gives a content directory |
| Structure.NewContentDirectoryArticles | crates/structure/src/lib.rs:29-33 | every article file is a listed file that classifies as an article, `year/month/name.md` below the root |
| Construct.MergeAssociative | crates/construct/src/files.rs:42-45 | merging plans is associative |
| Construct.PrefixAbsolute | crates/construct/src/files.rs:47-54 | a plan of absolute paths is left as it is by `prefix_dirs` |
| Construct.PrefixEmpty | crates/construct/src/files.rs:47-54 | the empty prefix changes nothing |
| Construct.PrefixMerge | crates/construct/src/files.rs:42-54 | prefixing distributes over merging |
| Construct.ParentsOfMeaning | crates/construct/src/files.rs:78-83 | exactly the joined parents of the files that have one |
| Construct.UsedDirsMeaning | crates/construct/src/files.rs:78-88 | the node's used directories are strictly ascending, so without duplicates, and exactly its files' parents |
| Construct.PathLessIsStrictTotalOrder | crates/construct/src/files.rs:85 | the order `sort` uses on paths is a strict total order |
| Construct.PlanFileCount | crates/construct/src/files.rs:66-98 | `_plan` (Construct.PlanOf): one planned file per file of the tree |
| Construct.PlanStartsWithOwn | crates/construct/src/files.rs:67-88 | the node's directory is planned first, then its files' parents; its own files come first, in order |
| Construct.PlanOfAbsolute | crates/construct/src/files.rs:90-95 | under an absolute parent every planned path is absolute and the second prefix changes nothing |
| Construct.RelativeParentDoublesPrefix | crates/construct/src/files.rs:90-95 | under a relative parent a child's directory gets the node's directory twice |
| Construct.FinalPlanOrder | crates/construct/src/files.rs:58-64 | `plan` (Construct.FinalPlan): the final directories are a reordering of the planned ones, by non-decreasing byte length with each length in planning order; the files are untouched |
| Construct.RunMeaning | crates/construct/src/files.rs:102-114 | the actions `execute` issues (Construct.Run): a run succeeds iff no action fails and then issues them all; a failing run stops at the first failing action and reports its error |
| Construct.RunConcat | crates/construct/src/files.rs:102-114 | two lists in a row: the second never starts when the first fails |
| Construct.Creates | crates/construct/src/files.rs:103-106 | one `create_dir_all` per directory, last first |
| Construct.DirsBeforeFiles | crates/construct/src/files.rs:102-114 | no file is written before every planned directory has been created |
| Construct.ConstructionPlan.Merge | crates/construct/src/files.rs:42-45 | the other plan's lists appended in place |
| Construct.ConstructionPlan.PrefixDirs | crates/construct/src/files.rs:47-54 | every path replaced in place by its join onto the prefix, the contents kept |
| Construct.ConstructionPlan.SortDirsByLength | crates/construct/src/files.rs:61 | the directories stably sorted by byte length, the files kept |
| Construct.ConstructionPlan.Execute | crates/construct/src/files.rs:102-114 | the actions issued and the result are those of running every directory, last first, then every file |
| Construct.ConstructionPlan.CreateDirs | crates/construct/src/files.rs:103-106 | the first loop issues `create_dir_all` from the last directory to the first, stopping at the first error |
| Construct.ConstructionPlan.WriteFiles | crates/construct/src/files.rs:108-111 | the second loop writes each file in order, stopping at the first error |
| Construct.PlanInto | crates/construct/src/files.rs:66-98 | a fresh plan holding the node's own part, then each child's plan, prefixed and merged, in child order |
| Construct.MakePlan | crates/construct/src/files.rs:58-64 | a fresh plan, the flattened tree with its directories sorted by length |
| Construct.Excluded | crates/construct/src/copy.rs:59-69 | excluded iff some exclude, taken relative to the root when relative, equals the path |
| Construct.NothingExcluded | crates/construct/src/copy.rs:59-69 | with no excludes nothing is excluded |
| Construct.SelectFilesMeaning | crates/construct/src/copy.rs:17-27 | the files kept are the walked files not excluded; the errors kept are all the walk's errors |
| Construct.DestinationMeaning | crates/construct/src/copy.rs:49-50 | a file below the source goes to the same place below the destination; one not below it keeps its absolute path |
| Construct.FileActionsMeaning | crates/construct/src/copy.rs:42-57 | the destination's parent created first if it has one, then the copy |
| Construct.CopyIndividualFile | crates/construct/src/copy.rs:42-57 | the actions and result of running `FileActions` |
| Construct.CopyFiles | crates/construct/src/copy.rs:32-40 | each file copied in order, stopping at the first error |
| Construct.CopyErrorStops | crates/construct/src/copy.rs:32-40 | once the copies of some first files fail, the later files change nothing |
| Construct.CopyActionsShape | crates/construct/src/copy.rs:32-57 | a file's copy comes right after the creation of its destination's parent, before any later file is touched |
| Construct.CopyDirRecursively | crates/construct/src/copy.rs:8-30 | a walk error copies nothing; a selected error copies nothing and is reported; otherwise the selected files are copied in walk order |
| Construct.WalkErrorCopiesNothing | crates/construct/src/copy.rs:17-28 | an error in the walk, excluded or not, stops the copy before any file |
| Util.GetSliceByCharAsWritten | crates/core/src/util.rs:3-15 | (as written) "" for an out-of-range `start`; else the characters from `start` counted on by `end`, cut at the end of the string, and for `end == 0` the rest of the string |
| Util.GetSliceByChar | crates/core/src/util.rs:3-15 | (corrected) the characters from `start` up to `end`, cut at the end of the string, empty for an empty or out-of-range range |
| Util.AsWrittenOvershoots | crates/core/src/util.rs:10-14 | `("ABCDEFG", 2..4)` gives `CDEF` as written, `CD` as intended; `0..0` gives the whole string as written, "" as intended |
| Util.AgreeFromZero | crates/core/src/util.rs:3-15 | the two agree on every non-empty range starting at 0 |
| Util.SliceSplit | crates/core/src/util.rs:3-15 | slices before and from a position put the string back together |
| Util.SliceExamples | crates/core/src/util.rs:22-33 | the source's test cases hold |
| WidgetsAi.MainTextBrief | crates/widgets/src/ai.rs:34-38 | `MainText` reuses the outline brief and differs only in its description |
| WidgetsAi.HeavyClass | crates/widgets/src/ai.rs:63-67 | the badge carries `aiusage-heavy` exactly for the heavy uses, nothing extra otherwise |
| WidgetsAi.Build | crates/widgets/src/ai.rs:58-78 | nothing exactly for `Unused`; otherwise the badge with its class and description pair |
| WidgetsAi.BadgeFields | crates/widgets/src/ai.rs:68-77 | the badge's class attribute is `aiusage` and the extra class only, and the brief and description appear in it |
| WidgetsAi.BuildFields | crates/widgets/src/ai.rs:42-77 | for a used level the badge holds `aiusage-heavy` exactly for the heavy uses |
| WidgetsArticleType.TablesDistinguish | crates/widgets/src/article_type.rs:13-25 | both tables tell the two types apart |
| WidgetsArticleType.Build | crates/widgets/src/article_type.rs:31-40 | a heading holding the type's description |
| WidgetsArticleType.BuildDistinguishes | crates/widgets/src/article_type.rs:31-40 | the heading tells the types apart |
| WidgetsSources.ToHtmlHolds | crates/widgets/src/sources.rs:49-59 | the item holds the name and the url |
| WidgetsSources.ItemsHtmlContains | crates/widgets/src/sources.rs:28-31 | every source's item appears in the list |
| WidgetsSources.BuildContent | crates/widgets/src/sources.rs:23-31 | nothing iff the list is empty, else the items inside `<ul>` |
| Widgets.GroundingBuild | crates/widgets/src/lib.rs:31-50 | nothing iff there is no content, else the section with both titles and the content |
| Widgets.SectionHolds | crates/widgets/src/lib.rs:37-49 | the section holds both titles and the content |
| Widgets.SourcesBuild | crates/widgets/src/sources.rs:16-32 | the sources widget is empty iff the list is, else its section holds both titles and every source's item |
| Widgets.ConcatenateStyles | crates/widgets/src/lib.rs:79-86 | the styles pushed in the order ai, type, sources |
| Widgets.RenderToPlaceholderContent | crates/widgets/src/lib.rs:70-77 | exactly the keys `ai`, `type`, `sources` and `widget_styles`, each widget's markup under its tag, the styles under the last |
| Widgets.DefaultsRender | crates/widgets/src/lib.rs:57-67 | by default there is no AI badge and no sources section, only the type heading |
| Website.PlaceholderContents | crates/website/src/articles.rs:55-60 | exactly `title`, `date`, `slug` and `content`, with the article's values |
| Website.ShellPlaceholder | crates/website/src/articles.rs:52-53 | the `${ name }` placeholder |
| Website.GenerateArticleHtml | crates/website/src/articles.rs:46-71 | succeeds iff every used name is known; else exactly the unknown used names; the page keeps the article, its HTML is the filled template and its path `group/slug.html` |
| Website.PlainTemplateIsPage | crates/website/src/articles.rs:64-68 | a template without placeholders is the page unchanged |
| Website.DateUnusedIrrelevant | crates/website/src/articles.rs:55-68 | the page does not depend on the date unless the template uses it |
| Website.FailingAgree | crates/website/src/articles.rs:64-68 | fillers that agree on which used names they know fail on the same names |
| Website.FillAgree | crates/website/src/articles.rs:64-68 | fillers that agree on every used name fill alike |
| Website.PageFiles | crates/website/src/lib.rs:46 | the pages' files, in page order |
| Website.GetWebpageConstruction | crates/website/src/lib.rs:40-50 | an empty root with one child, `articles`, holding every page's file and nothing else |
| Website.PlannedPages | crates/website/src/lib.rs:40-50 | planned against any root, page `i` is written at `root/articles/` plus its path, in page order, after the root and `root/articles` |
| Website.GeneratedPagePath | crates/website/src/articles.rs:69 | a page of a non-empty group lands at `root/articles/group/slug.html` |
| Paths.Parent | crates/construct/src/copy.rs:52-54 | the parent exists iff there is a component, and is everything but the last |
| Paths.FileNameOfJoin | crates/structure/src/template.rs:13-15 | an ordinary name joined onto any path is its file name |
| Paths.FileNameParentRoundTrip | crates/construct/src/copy.rs:52-54 | a path with a file name is its parent joined with that name; a path ending in `..` has none |
| Paths.ExtensionMeaning | crates/structure/src/lib.rs:120-124 | the text after the last dot of the file name, absent without a dot, for a leading-dot name and for `..` |
| Paths.StripPrefixJoin | crates/construct/src/copy.rs:49-50 | stripping a base from a path joined onto it gives the relative part back |
| Paths.JoinStripPrefix | crates/structure/src/lib.rs:57 | joining what is stripped back onto the base gives the path |
| Paths.PathLessStrictTotal | crates/construct/src/files.rs:85-86 | the derived order on paths is a strict total order |
| Strings.ParseUsizeOfNatToString | crates/structure/src/lib.rs:63-77 | rendering a `usize` and parsing it back gives the number |
| Strings.PadZero | crates/structure/src/lib.rs:70 | padded on the left with zeros to the width, the string kept at the end |
| Sorting.SortByKeyCorrect | crates/construct/src/files.rs:61 | the stable sort by key is sorted, a permutation, and keeps each key's elements in order |
| Sorting.StableSortByKey | crates/markdown/src/parse/sub_parser/footnote.rs:139 | the insertion loop computes the stable sort by key |
| Sorting.SortThenDedup | crates/structure/src/lib.rs:13-15 | `dedup` after `sort` gives the distinct elements in increasing order |

## Left out

- File-system I/O is a parameter:
  - directory walks and listings are given values;
  - failures of `create_dir_all`, `write` and `copy` come from a given oracle;
  - their effects on disk are not modelled.
- Several foreign components are abstract:
  - the Markdown tokenizer and HTML renderer (pulldown-cmark) become the event
    datatype plus a parser parameter;
  - syntect's lookup and highlighting become a syntax set and a
    highlight function;
  - the emoji data set becomes a map.
- The regex engine is not modelled. A scanner matches the two placeholder
  syntaxes the program builds. Other regexes passed to `from_regex` are kept
  only as their capture names.
- Template.FromStrs: delimiters holding `.`, `*`, `+`, `?`, `|` or `\` are
  outside the model. `from_strs` passes them to the regex unescaped, where they
  either fail to build (`InvalidRegex`) or stop matching literally, and the
  regex engine is not modelled. Every caller passes `${` and `}` or `:` and `:`.
- TOML deserialisation of the front matter is a parameter.
- `MarkdownParser::parse`, which `parse_markdown` calls, is a parameter. The
  full-service iterator that produces the events is modelled on its own.
- The article's date is a parameter of page generation. The article metadata
  here has no date field.
- Logging, the debug print in the iterator and the `Debug` impls are left out;
  they change no result.
- Control.Dec: `count - 1` wraps from 0 to 255 as in a release build. A debug
  build would panic instead, and that panic is not modelled.
- Sorting: `sort_by_key`, `sort` and `sort_by` are modelled on values, as
  stable sorts by key and as sort-then-dedup. The in-place algorithm is left
  out.
- Non-UTF-8 path components are not represented, so `InvalidPath` and the
  `to_str` failures never occur.
- The trailing separator `join("")` leaves is not represented. That changes
  the byte length the directory sort uses by at most one.
- `FSNode` kinds other than file and directory are dropped.
- Util.GetSliceByCharAsWritten: for `end == 0` the model takes `end - 1` to
  wrap to `usize::MAX`, as a release build computes it, so the rest of the
  string is returned. A debug build would panic instead, and that panic is not
  modelled.
- Website.NamePath: a group string is taken as one component, since it never
  holds a separator.
- `WebsiteGenerationError` keeps only `InvalidPlaceholder`.
- `load_templates` is left out, because it only reads files.
- `emoji.rs` passes an `Option` filler to `fill_placeholders`. The model uses
  the string filler, and states the `Option` view in Emoji.ReplaceNeverFails.
- Control.UpdateBy: a function returning the merged value; the in-place
  update is in SubParsers.SubParserChain.ReceiveEvent.
- AssetFile's full-build use (`copy_asset_files`) is outside the core.

## Findings

| source | as written | input that shows it | evidently intended | confidence | as-written member | corrected member |
|---|---|---|---|---|---|---|
| crates/structure/src/lib.rs:154-163 | an asset needs more than two names after the group, the first `assets` | `2024/03/assets/img.png` (two names after the group) is not an asset | every file inside the group's `assets` directory is an asset, as the full build copies it | not executed | Structure.AssetFileAsWrittenMissesDirectChild | Structure.AssetFileMeaning |
| crates/structure/src/lib.rs:17-28 | each group's directory is reopened at `group_dir_path()`, the year and month in plain decimal | a tree `content/2024/03/foo.md`: the scan finds group (2024, 3), then `content/2024/3` is opened and the call fails with NotFound | list the directory the scan found for the group | not executed | Structure.PaddedMonthFailsAsWritten | Structure.PaddedMonthSucceeds |
| crates/core/src/util.rs:3-15 | `nth(range.end - 1)` counts on from after `start`, so `end` acts as a length | `get_slice_by_char("ABCDEFG", 2..4)` gives `CDEF` | `CD`, the characters in the range | not executed | Util.AsWrittenOvershoots | Util.GetSliceByChar |
