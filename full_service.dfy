/**
 * The older, monolithic Markdown pass: one iterator that keeps a `Parsing`
 * state, a pending ignore, the footnotes and references seen, and the events
 * queued by the final footnote list. Each event is first checked against
 * the pending ignore, then offered to the front-matter, content,
 * highlighting and footnote steps in that order; the first step that
 * answers decides what the event becomes.
 */
module FullService {
  import opened Wrappers
  import opened Events
  import C = Control
  import CB = CodeBlock
  import F = Footnote
  import S = Sorting

  datatype Parsing =
    | Content
    | FrontmatterPrelude
    | FrontmatterAfter
    | SyntaxHighlightPrelude(lang: string)
    | SyntaxHighlightAfter
    | Footnotes

  /** What a step decides for an event. */
  datatype EventProcess =
    | Discard
    | IgnoreNext(ignore: C.Ignore)
    | UseAsIs
    | UseThisInstead(events: seq<Event>)

  /** `EventProcess::html`: one HTML event instead of the original. */
  function UseHtml(html: string): EventProcess { UseThisInstead([Html(html)]) }

  /** `ignore_if_softbreak`, armed by a text in ordinary content. */
  const SoftBreakIgnore: C.Ignore := C.ForNextIf(1, IsSoftBreak)

  /** The fields of `MarkdownParserIter` the steps read and write, with the captured front matter. */
  datatype ParserState = ParserState(
    parsing: Parsing,
    ignore: Option<C.Ignore>,
    footnotes: seq<F.FootNoteDefinition>,
    refs: seq<F.FootNoteRef>,
    frontmatter: Option<string>)

  const Initial: ParserState := ParserState(Content, None, [], [], None)

  /** The abort messages of the front-matter, code-block and footnote steps. */
  const FrontmatterTextMessage: string := "Expected only Event::Text to come afte prelude"
  const FrontmatterEndMessage: string := "Expected only Event::End(..) to come afte prelude"
  const CodeBlockMessage: string := "Expected only Event::Text or Event::End(CodeBlock) to come during SyntaxHighlightPrelude"
  const FootnoteMessage: string := "Footnote must exist during `Parsing::Footnotes`"

  predicate InFrontmatter(p: Parsing) { p.FrontmatterPrelude? || p.FrontmatterAfter? }

  predicate InCodeBlock(p: Parsing) { p.SyntaxHighlightPrelude? || p.SyntaxHighlightAfter? }

  predicate IsFencedStart(e: Event) { e.Start? && e.tag.CodeBlock? && e.tag.codeKind.Fenced? }

  // ---------------------------------------------------------------------
  // The four steps. Each gives the new state and its answer; an answer of
  // `None` leaves the state as it was and passes the event on.
  // ---------------------------------------------------------------------

  /** `update_toml_parse`: the text and the end marker that must follow a front-matter start. */
  function TomlStep(s: ParserState, e: Event): (r: Outcome<(ParserState, Option<EventProcess>)>)
    ensures !InFrontmatter(s.parsing) ==> r == Done((s, None))
    ensures s.parsing.FrontmatterPrelude? ==> (r.Done? <==> e.Text?)
    ensures s.parsing.FrontmatterAfter? ==> (r.Done? <==> e == TomlEnd)
    ensures InFrontmatter(s.parsing) && r.Done? ==> r.value.1 == Some(Discard)
    ensures s.parsing.FrontmatterPrelude? && e.Text? ==>
      r.value.0 == s.(parsing := FrontmatterAfter, frontmatter := Some(e.text))
    ensures s.parsing.FrontmatterAfter? && e == TomlEnd ==> r.value.0 == s.(parsing := Content)
  {
    match s.parsing
    case FrontmatterPrelude =>
      if e.Text? then Done((s.(parsing := FrontmatterAfter, frontmatter := Some(e.text)), Some(Discard)))
      else Panic(FrontmatterTextMessage)
    case FrontmatterAfter =>
      if e == TomlEnd then Done((s.(parsing := Content), Some(Discard)))
      else Panic(FrontmatterEndMessage)
    case _ => Done((s, None))
  }

  /**
   * `update_content_parse`: in ordinary content a front-matter start or a
   * fenced code-block start is dropped and switches state, and a text passes
   * through arming the soft-break ignore. Nothing else is answered.
   */
  function ContentStep(s: ParserState, e: Event): (r: (ParserState, Option<EventProcess>))
    ensures !s.parsing.Content? ==> r == (s, None)
    ensures s.parsing.Content? && e == TomlStart ==> r == (s.(parsing := FrontmatterPrelude), Some(Discard))
    ensures s.parsing.Content? && e.Text? ==> r == (s, Some(IgnoreNext(SoftBreakIgnore)))
    ensures s.parsing.Content? && IsFencedStart(e) ==>
      r == (s.(parsing := SyntaxHighlightPrelude(e.tag.codeKind.lang)), Some(Discard))
    ensures r.1.None? ==> r.0 == s
    ensures r.1.None? <==> !s.parsing.Content? || (e != TomlStart && !e.Text? && !IsFencedStart(e))
  {
    if !s.parsing.Content? then (s, None)
    else if e == TomlStart then (s.(parsing := FrontmatterPrelude), Some(Discard))
    else if e.Text? then (s, Some(IgnoreNext(SoftBreakIgnore)))
    else if IsFencedStart(e) then (s.(parsing := SyntaxHighlightPrelude(e.tag.codeKind.lang)), Some(Discard))
    else (s, None)
  }

  /**
   * `update_syntaxhighlight_parse`: after a fenced start, the end tag closes
   * an empty block; a text is highlighted, and then only the end tag may
   * follow. Any other event inside aborts.
   */
  function SyntaxStep(hl: CB.SyntaxHighlighter, s: ParserState, e: Event): (r: Outcome<(ParserState, Option<EventProcess>)>)
    ensures !InCodeBlock(s.parsing) ==> r == Done((s, None))
    ensures s.parsing.SyntaxHighlightPrelude? ==> (r.Done? <==> e == End(CodeBlockEnd) || e.Text?)
    ensures s.parsing.SyntaxHighlightAfter? ==> (r.Done? <==> e == End(CodeBlockEnd))
    ensures InCodeBlock(s.parsing) && e == End(CodeBlockEnd) ==> r == Done((s.(parsing := Content), Some(Discard)))
    ensures s.parsing.SyntaxHighlightPrelude? && e.Text? ==>
      r == Done((s.(parsing := SyntaxHighlightAfter),
                 Some(UseHtml(CB.GenerateHighlightedHtml(hl, s.parsing.lang, e.text)))))
  {
    match s.parsing
    case SyntaxHighlightPrelude(lang) =>
      if e == End(CodeBlockEnd) then Done((s.(parsing := Content), Some(Discard)))
      else if e.Text? then
        Done((s.(parsing := SyntaxHighlightAfter), Some(UseHtml(CB.GenerateHighlightedHtml(hl, lang, e.text)))))
      else Panic(CodeBlockMessage)
    case SyntaxHighlightAfter =>
      if e == End(CodeBlockEnd) then Done((s.(parsing := Content), Some(Discard)))
      else Panic(CodeBlockMessage)
    case _ => Done((s, None))
  }

  lemma AppendToLastIsUpdate(defs: seq<F.FootNoteDefinition>, e: Event)
    requires |defs| > 0
    ensures AppendToLast(defs, [e])
      == defs[|defs| - 1 := defs[|defs| - 1].(events := defs[|defs| - 1].events + [e])]
  {
  }

  /** The definitions with `es` added to the body of the last one. */
  function AppendToLast(defs: seq<F.FootNoteDefinition>, es: seq<Event>): (r: seq<F.FootNoteDefinition>)
    requires |defs| > 0
    ensures |r| == |defs| && r[..|r| - 1] == defs[..|defs| - 1]
    ensures r[|r| - 1] == F.FootNoteDefinition(defs[|defs| - 1].id, defs[|defs| - 1].events + es)
  {
    var last := defs[|defs| - 1];
    defs[..|defs| - 1] + [F.FootNoteDefinition(last.id, last.events + es)]
  }

  /**
   * `update_footnote_parse`: inside a definition every event but its end
   * tag joins the body of the last definition; outside, a reference is
   * counted as in the footnote sub-parser and a definition start opens a
   * new definition.
   */
  function FootnoteStep(s: ParserState, e: Event): (r: Outcome<(ParserState, Option<EventProcess>)>)
    ensures r.Panic? <==> s.parsing.Footnotes? && e != F.DefinitionEnd && |s.footnotes| == 0
    ensures s.parsing.Footnotes? && e == F.DefinitionEnd ==> r == Done((s.(parsing := Content), Some(Discard)))
    ensures s.parsing.Footnotes? && e != F.DefinitionEnd && |s.footnotes| > 0 ==>
      r == Done((s.(footnotes := AppendToLast(s.footnotes, [e])), Some(Discard)))
    ensures !s.parsing.Footnotes? && e.FootnoteReference? ==>
      r == Done((s.(refs := F.AddReference(s.refs, e.id).0),
                 Some(UseHtml(F.ReferenceHtml(e.id, F.AddReference(s.refs, e.id).0[F.AddReference(s.refs, e.id).1].refCount,
                                              F.AddReference(s.refs, e.id).1)))))
    ensures !s.parsing.Footnotes? && F.IsDefinitionStart(e) ==>
      r == Done((s.(parsing := Footnotes, footnotes := s.footnotes + [F.FootNoteDefinition(e.tag.id, [])]), Some(Discard)))
    ensures !s.parsing.Footnotes? && !e.FootnoteReference? && !F.IsDefinitionStart(e) ==> r == Done((s, None))
  {
    if s.parsing.Footnotes? then
      if e == F.DefinitionEnd then Done((s.(parsing := Content), Some(Discard)))
      else if |s.footnotes| == 0 then Panic(FootnoteMessage)
      else Done((s.(footnotes := AppendToLast(s.footnotes, [e])), Some(Discard)))
    else if e.FootnoteReference? then
      var a := F.AddReference(s.refs, e.id);
      Done((s.(refs := a.0), Some(UseHtml(F.ReferenceHtml(e.id, a.0[a.1].refCount, a.1)))))
    else if F.IsDefinitionStart(e) then
      Done((s.(parsing := Footnotes, footnotes := s.footnotes + [F.FootNoteDefinition(e.tag.id, [])]), Some(Discard)))
    else Done((s, None))
  }

  /** The four steps in order, toml, content, syntax, footnote: the first answer wins. */
  function Process(hl: CB.SyntaxHighlighter, s: ParserState, e: Event): Outcome<(ParserState, Option<EventProcess>)> {
    match TomlStep(s, e)
    case Panic(m) => Panic(m)
    case Done(t) =>
      if t.1.Some? then Done(t)
      else
        var c := ContentStep(s, e);
        if c.1.Some? then Done(c)
        else
          match SyntaxStep(hl, s, e)
          case Panic(m) => Panic(m)
          case Done(y) => if y.1.Some? then Done(y) else FootnoteStep(s, e)
  }

  /**
   * Which step answers, by state: front matter and code blocks belong to
   * their own step; in a definition only the footnote step answers; in
   * ordinary content the content step answers when it can and the footnote
   * step otherwise.
   */
  lemma ProcessByState(hl: CB.SyntaxHighlighter, s: ParserState, e: Event)
    ensures InFrontmatter(s.parsing) ==> Process(hl, s, e) == TomlStep(s, e)
    ensures InCodeBlock(s.parsing) ==> Process(hl, s, e) == SyntaxStep(hl, s, e)
    ensures s.parsing.Footnotes? ==> Process(hl, s, e) == FootnoteStep(s, e)
    ensures s.parsing.Content? && ContentStep(s, e).1.Some? ==> Process(hl, s, e) == Done(ContentStep(s, e))
    ensures s.parsing.Content? && ContentStep(s, e).1.None? ==> Process(hl, s, e) == FootnoteStep(s, e)
  {
    match s.parsing
    case Content =>
      assert TomlStep(s, e) == Done((s, None)) && SyntaxStep(hl, s, e) == Done((s, None));
    case FrontmatterPrelude =>
    case FrontmatterAfter =>
    case SyntaxHighlightPrelude(_) =>
      assert TomlStep(s, e) == Done((s, None)) && ContentStep(s, e) == (s, None);
    case SyntaxHighlightAfter =>
      assert TomlStep(s, e) == Done((s, None)) && ContentStep(s, e) == (s, None);
    case Footnotes =>
      assert TomlStep(s, e) == Done((s, None)) && ContentStep(s, e) == (s, None) && SyntaxStep(hl, s, e) == Done((s, None));
  }

  /**
   * One event through the iterator: a pending ignore is consulted first
   * and a suppressed event yields nothing; otherwise the answer of the
   * steps decides the batch, and an event nobody answers passes unchanged.
   */
  function EventStep(hl: CB.SyntaxHighlighter, s: ParserState, e: Event): (r: Outcome<(ParserState, seq<Event>)>)
    ensures s.ignore.Some? && C.IgnoreNext(s.ignore.value, e).0 ==>
      r == Done((s.(ignore := C.IgnoreNext(s.ignore.value, e).1), []))
  {
    var sup := s.ignore.Some? && C.IgnoreNext(s.ignore.value, e).0;
    var s1 := if s.ignore.Some? then s.(ignore := C.IgnoreNext(s.ignore.value, e).1) else s;
    if sup then Done((s1, []))
    else
      match Process(hl, s1, e)
      case Panic(m) => Panic(m)
      case Done(p) => Done(Answer(p, e))
  }

  /** The batch an answer makes of the event and the state after it: only a new ignore changes the state. */
  function Answer(p: (ParserState, Option<EventProcess>), e: Event): (r: (ParserState, seq<Event>))
    ensures r.0.parsing == p.0.parsing && r.0.footnotes == p.0.footnotes && r.0.refs == p.0.refs
  {
    match p.1
    case None => (p.0, [e])
    case Some(Discard) => (p.0, [])
    case Some(IgnoreNext(i)) => (p.0.(ignore := Some(i)), [e])
    case Some(UseAsIs) => (p.0, [e])
    case Some(UseThisInstead(v)) => (p.0, v)
  }

  /** The batches for a stream of events, or the first abort. */
  function EventRun(hl: CB.SyntaxHighlighter, s: ParserState, es: seq<Event>): (r: Outcome<(ParserState, seq<seq<Event>>)>)
    ensures r.Done? ==> |r.value.1| == |es|
    decreases |es|
  {
    if |es| == 0 then Done((s, []))
    else
      match EventStep(hl, s, es[0])
      case Panic(m) => Panic(m)
      case Done(d) =>
        match EventRun(hl, d.0, es[1..])
        case Panic(m) => Panic(m)
        case Done(rest) => Done((rest.0, [d.1] + rest.1))
  }

  /** `n` empty batches. */
  function Empties(n: nat): (r: seq<seq<Event>>)
    ensures |r| == n && forall k :: 0 <= k < n ==> r[k] == []
  {
    seq(n, k => [])
  }

  lemma RunOne(hl: CB.SyntaxHighlighter, s: ParserState, e: Event, s': ParserState, out: seq<Event>)
    requires EventStep(hl, s, e) == Done((s', out))
    ensures EventRun(hl, s, [e]) == Done((s', [out]))
  {
    assert [e][0] == e && [e][1..] == [];
    assert EventRun(hl, s', []) == Done((s', []));
    assert [out] + [] == [out];
  }

  lemma RunCons(hl: CB.SyntaxHighlighter, s: ParserState, e: Event, rest: seq<Event>, s': ParserState, out: seq<Event>)
    requires EventStep(hl, s, e) == Done((s', out)) && EventRun(hl, s', rest).Done?
    ensures EventRun(hl, s, [e] + rest) == Done((EventRun(hl, s', rest).value.0, [out] + EventRun(hl, s', rest).value.1))
  {
    assert ([e] + rest)[0] == e;
    assert ([e] + rest)[1..] == rest;
  }

  // ---------------------------------------------------------------------
  // Sequences
  // ---------------------------------------------------------------------

  /**
   * A text in ordinary content passes through and drops a soft break right
   * after it; the state is as before once the ignore is used up.
   */
  lemma TextDropsSoftBreak(hl: CB.SyntaxHighlighter, s: ParserState, t: string)
    requires s.parsing.Content? && s.ignore.None?
    ensures EventStep(hl, s, Text(t)) == Done((s.(ignore := Some(SoftBreakIgnore)), [Text(t)]))
    ensures EventRun(hl, s, [Text(t), SoftBreak]) == Done((s, [[Text(t)], []]))
  {
    var s1 := s.(ignore := Some(SoftBreakIgnore));
    assert EventStep(hl, s, Text(t)) == Done((s1, [Text(t)]));
    assert C.IgnoreNext(SoftBreakIgnore, SoftBreak) == (true, None);
    assert EventStep(hl, s1, SoftBreak) == Done((s, []));
    RunOne(hl, s1, SoftBreak, s, []);
    RunCons(hl, s, Text(t), [SoftBreak], s1, [Text(t)]);
    assert [Text(t)] + [SoftBreak] == [Text(t), SoftBreak];
    assert [[Text(t)]] + [[]] == [[Text(t)], []];
  }

  /**
   * A front-matter block, start marker, one text and end marker, yields
   * nothing, stores the text as the front matter and returns to content.
   */
  lemma FrontmatterSequence(hl: CB.SyntaxHighlighter, s: ParserState, t: string)
    requires s.parsing.Content? && s.ignore.None?
    ensures EventRun(hl, s, [TomlStart, Text(t), TomlEnd]) == Done((s.(frontmatter := Some(t)), [[], [], []]))
  {
    var s1 := s.(parsing := FrontmatterPrelude);
    var s2 := s.(parsing := FrontmatterAfter, frontmatter := Some(t));
    assert EventStep(hl, s, TomlStart) == Done((s1, []));
    assert EventStep(hl, s1, Text(t)) == Done((s2, []));
    assert EventStep(hl, s2, TomlEnd) == Done((s.(frontmatter := Some(t)), []));
    RunOne(hl, s2, TomlEnd, s.(frontmatter := Some(t)), []);
    RunCons(hl, s1, Text(t), [TomlEnd], s2, []);
    assert [Text(t)] + [TomlEnd] == [Text(t), TomlEnd];
    RunCons(hl, s, TomlStart, [Text(t), TomlEnd], s1, []);
    assert [TomlStart] + [Text(t), TomlEnd] == [TomlStart, Text(t), TomlEnd];
    var z: seq<Event> := [];
    assert [z] + ([z] + [z]) == [z, z, z];
  }

  /** After a front-matter start, only a text may come; anything else aborts. */
  lemma FrontmatterNeedsText(hl: CB.SyntaxHighlighter, s: ParserState, e: Event)
    requires s.parsing.FrontmatterPrelude? && s.ignore.None? && !e.Text?
    ensures EventStep(hl, s, e).Panic?
  {
  }

  /** After the front-matter text, only the end marker may come; anything else aborts. */
  lemma FrontmatterNeedsEnd(hl: CB.SyntaxHighlighter, s: ParserState, e: Event)
    requires s.parsing.FrontmatterAfter? && s.ignore.None? && e != TomlEnd
    ensures EventStep(hl, s, e).Panic?
  {
  }

  /** A fenced block with one text becomes the highlighted HTML, and the state returns to content. */
  lemma CodeBlockSequence(hl: CB.SyntaxHighlighter, s: ParserState, lang: string, t: string)
    requires s.parsing.Content? && s.ignore.None?
    ensures EventRun(hl, s, [Start(CodeBlock(Fenced(lang))), Text(t), End(CodeBlockEnd)])
      == Done((s, [[], [Html(CB.GenerateHighlightedHtml(hl, lang, t))], []]))
  {
    var s1 := s.(parsing := SyntaxHighlightPrelude(lang));
    var s2 := s.(parsing := SyntaxHighlightAfter);
    var es := [Start(CodeBlock(Fenced(lang))), Text(t), End(CodeBlockEnd)];
    assert EventStep(hl, s, es[0]) == Done((s1, []));
    assert EventStep(hl, s1, es[1]) == Done((s2, [Html(CB.GenerateHighlightedHtml(hl, lang, t))]));
    assert EventStep(hl, s2, es[2]) == Done((s, []));
    RunOne(hl, s2, es[2], s, []);
    RunCons(hl, s1, es[1], [es[2]], s2, [Html(CB.GenerateHighlightedHtml(hl, lang, t))]);
    assert [es[1]] + [es[2]] == es[1..];
    RunCons(hl, s, es[0], es[1..], s1, []);
    assert [es[0]] + es[1..] == es;
    var h: seq<Event> := [Html(CB.GenerateHighlightedHtml(hl, lang, t))];
    assert [[]] + ([h] + [[]]) == [[], h, []];
  }

  /** An empty fenced block yields nothing at all. */
  lemma EmptyCodeBlock(hl: CB.SyntaxHighlighter, s: ParserState, lang: string)
    requires s.parsing.Content? && s.ignore.None?
    ensures EventRun(hl, s, [Start(CodeBlock(Fenced(lang))), End(CodeBlockEnd)]) == Done((s, [[], []]))
  {
    var s1 := s.(parsing := SyntaxHighlightPrelude(lang));
    var es := [Start(CodeBlock(Fenced(lang))), End(CodeBlockEnd)];
    assert EventStep(hl, s, es[0]) == Done((s1, []));
    assert EventStep(hl, s1, es[1]) == Done((s, []));
    RunOne(hl, s1, es[1], s, []);
    RunCons(hl, s, es[0], [es[1]], s1, []);
    assert [es[0]] + [es[1]] == es;
    var z: seq<Event> := [];
    assert [z] + [z] == [z, z];
  }

  /** After the highlighted text only the end tag may come: a second text aborts. */
  lemma CodeBlockNeedsEnd(hl: CB.SyntaxHighlighter, s: ParserState, e: Event)
    requires s.parsing.SyntaxHighlightAfter? && s.ignore.None? && e != End(CodeBlockEnd)
    ensures EventStep(hl, s, e).Panic?
  {
  }

  /**
   * Inside a definition every event up to the end tag is buffered verbatim
   * into the last definition and yields nothing; the end tag returns to content.
   */
  lemma {:induction false} DefinitionBodyRun(hl: CB.SyntaxHighlighter, s: ParserState, body: seq<Event>)
    requires s.parsing.Footnotes? && |s.footnotes| > 0 && s.ignore.None?
    requires forall k :: 0 <= k < |body| ==> body[k] != F.DefinitionEnd
    ensures EventRun(hl, s, body + [F.DefinitionEnd])
      == Done((s.(parsing := Content, footnotes := AppendToLast(s.footnotes, body)), Empties(|body| + 1)))
    decreases |body|
  {
    if |body| == 0 {
      assert body + [F.DefinitionEnd] == [F.DefinitionEnd];
      var last := s.footnotes[|s.footnotes| - 1];
      assert last.events + [] == last.events;
      assert s.footnotes[..|s.footnotes| - 1] + [last] == s.footnotes;
      assert AppendToLast(s.footnotes, body) == s.footnotes;
      assert EventStep(hl, s, F.DefinitionEnd) == Done((s.(parsing := Content), []));
      RunOne(hl, s, F.DefinitionEnd, s.(parsing := Content), []);
      assert Empties(1) == [[]];
    } else {
      var e := body[0];
      var s1 := s.(footnotes := AppendToLast(s.footnotes, [e]));
      assert EventStep(hl, s, e) == Done((s1, []));
      assert [e] + (body[1..] + [F.DefinitionEnd]) == body + [F.DefinitionEnd];
      DefinitionBodyRun(hl, s1, body[1..]);
      RunCons(hl, s, e, body[1..] + [F.DefinitionEnd], s1, []);
      var last := s.footnotes[|s.footnotes| - 1];
      assert last.events + [e] + body[1..] == last.events + body;
      assert AppendToLast(s1.footnotes, body[1..]) == AppendToLast(s.footnotes, body);
      assert [[]] + Empties(|body[1..]| + 1) == Empties(|body| + 1);
    }
  }

  /**
   * A whole definition, start tag, body and end tag, yields nothing and
   * files the body, as written, under its id.
   */
  lemma DefinitionSequence(hl: CB.SyntaxHighlighter, s: ParserState, id: string, body: seq<Event>)
    requires s.parsing.Content? && s.ignore.None?
    requires forall k :: 0 <= k < |body| ==> body[k] != F.DefinitionEnd
    ensures EventRun(hl, s, [Start(FootnoteDefinition(id))] + body + [F.DefinitionEnd])
      == Done((s.(footnotes := s.footnotes + [F.FootNoteDefinition(id, body)]), Empties(|body| + 2)))
  {
    var es := [Start(FootnoteDefinition(id))] + body + [F.DefinitionEnd];
    var s1 := s.(parsing := Footnotes, footnotes := s.footnotes + [F.FootNoteDefinition(id, [])]);
    DefinitionStartStep(hl, s, id);
    assert [es[0]] + (body + [F.DefinitionEnd]) == es;
    DefinitionBodyRun(hl, s1, body);
    RunCons(hl, s, es[0], body + [F.DefinitionEnd], s1, []);
    assert [] + body == body;
    assert AppendToLast(s1.footnotes, body) == s.footnotes + [F.FootNoteDefinition(id, body)];
    assert [[]] + Empties(|body| + 1) == Empties(|body| + 2);
  }

  lemma DefinitionStartStep(hl: CB.SyntaxHighlighter, s: ParserState, id: string)
    requires s.parsing.Content? && s.ignore.None?
    ensures EventStep(hl, s, Start(FootnoteDefinition(id)))
      == Done((s.(parsing := Footnotes, footnotes := s.footnotes + [F.FootNoteDefinition(id, [])]), []))
  {
    var e := Start(FootnoteDefinition(id));
    ProcessByState(hl, s, e);
    assert ContentStep(s, e).1.None?;
    assert F.IsDefinitionStart(e);
  }

  /**
   * A reference in ordinary content is numbered and counted exactly as the
   * footnote sub-parser numbers and counts it, and becomes the same HTML.
   */
  lemma ReferenceAgrees(hl: CB.SyntaxHighlighter, s: ParserState, id: string)
    requires s.parsing.Content? && s.ignore.None?
    ensures F.FootnoteStep(F.FootnoteState(s.footnotes, s.refs, None), FootnoteReference(id)).1.Break?
    ensures EventStep(hl, s, FootnoteReference(id))
      == Done((s.(refs := F.FootnoteStep(F.FootnoteState(s.footnotes, s.refs, None), FootnoteReference(id)).0.refs),
               [F.FootnoteStep(F.FootnoteState(s.footnotes, s.refs, None), FootnoteReference(id)).1.process.event]))
  {
  }

  /** In a definition the footnote list always has a last entry to buffer into. */
  ghost predicate Wf(s: ParserState) {
    s.parsing.Footnotes? ==> |s.footnotes| > 0
  }

  /** Every step keeps that invariant, so the footnote step never aborts. */
  lemma EventStepKeepsWf(hl: CB.SyntaxHighlighter, s: ParserState, e: Event)
    requires Wf(s)
    ensures FootnoteStep(s, e).Done?
    ensures EventStep(hl, s, e).Done? ==> Wf(EventStep(hl, s, e).value.0)
  {
    FootnoteStepWhenWf(s, e);
    EventStepWf(hl, s, e);
  }

  lemma FootnoteStepWhenWf(s: ParserState, e: Event)
    requires Wf(s)
    ensures FootnoteStep(s, e).Done?
  {
  }

  lemma EventStepWf(hl: CB.SyntaxHighlighter, s: ParserState, e: Event)
    requires Wf(s)
    ensures EventStep(hl, s, e).Done? ==> Wf(EventStep(hl, s, e).value.0)
  {
    var s1 := if s.ignore.Some? then s.(ignore := C.IgnoreNext(s.ignore.value, e).1) else s;
    if !(s.ignore.Some? && C.IgnoreNext(s.ignore.value, e).0) {
      ProcessKeepsWf(hl, s1, e);
    }
  }

  lemma ProcessKeepsWf(hl: CB.SyntaxHighlighter, s: ParserState, e: Event)
    requires Wf(s)
    ensures Process(hl, s, e).Done? ==> Wf(Process(hl, s, e).value.0)
  {
    ProcessByState(hl, s, e);
    if (s.parsing.Content? && ContentStep(s, e).1.None?) || s.parsing.Footnotes? {
      var r := FootnoteStep(s, e);
      if r.Done? && r.value.0.parsing.Footnotes? {
        assert |r.value.0.footnotes| > 0;
      }
    }
  }

  // ---------------------------------------------------------------------
  // Finalization and the iterator
  // ---------------------------------------------------------------------

  /**
   * The events `finalization` queues: the footnote list of the footnote
   * sub-parser, built from the same definitions and references, or nothing
   * when there is no definition.
   */
  function FinalizationList(s: ParserState): seq<Event> {
    F.FinalizeEvents(F.FootnoteState(s.footnotes, s.refs, None)).GetOr([])
  }

  /** The list is empty exactly without definitions; otherwise it is the aside around the sorted entries. */
  lemma FinalizationListShape(s: ParserState)
    ensures FinalizationList(s) == [] <==> s.footnotes == []
    ensures s.footnotes != [] ==>
      FinalizationList(s) == [Html(F.AsideOpen)] + F.ItemsEvents(F.SortedItems(s.footnotes, s.refs)) + [Html(F.AsideClose)]
  {
    assert F.Flushed(F.FootnoteState(s.footnotes, s.refs, None)) == s.footnotes;
  }

  /** The iterator's position in the token stream, its queued events and whether it finalized. */
  datatype IterState = IterState(s: ParserState, pos: nat, lastAppend: seq<Event>, finalized: bool)

  /** One event through the steps, from the iterator's state. */
  function Consume(hl: CB.SyntaxHighlighter, it: IterState, e: Event): (r: Outcome<(IterState, Option<seq<Event>>)>)
    ensures r.Panic? <==> EventStep(hl, it.s, e).Panic?
    ensures r.Done? ==> r.value == (it.(s := EventStep(hl, it.s, e).value.0), Some(EventStep(hl, it.s, e).value.1))
  {
    match EventStep(hl, it.s, e)
    case Panic(m) => Panic(m)
    case Done(d) => Done((it.(s := d.0), Some(d.1)))
  }

  /**
   * `Iterator::next` for `MarkdownParserIter`: the next token, else the
   * next queued event, goes through the steps. Once both are exhausted the
   * first call finalizes, queuing the footnote list and returning its first
   * event unprocessed; every later call returns nothing.
   */
  function IterNext(hl: CB.SyntaxHighlighter, input: seq<Event>, it: IterState): Outcome<(IterState, Option<seq<Event>>)> {
    if it.pos < |input| then Consume(hl, it.(pos := it.pos + 1), input[it.pos])
    else if |it.lastAppend| > 0 then Consume(hl, it.(lastAppend := it.lastAppend[1..]), it.lastAppend[0])
    else if it.finalized then Done((it, None))
    else Done(Finalize(it))
  }

  /** The finalizing call: the footnote list is queued without its first event, which is returned. */
  function Finalize(it: IterState): (IterState, Option<seq<Event>>) {
    var list := FinalizationList(it.s);
    var s := it.s.(footnotes := F.Drained(it.s.footnotes));
    if |list| == 0 then (IterState(s, it.pos, [], true), None)
    else (IterState(s, it.pos, list[1..], true), Some([list[0]]))
  }

  /**
   * Finalization happens only once the tokens and the queue are exhausted,
   * and then queues the footnote list without its first event, which is
   * returned as is.
   */
  lemma FinalizesWhenExhausted(hl: CB.SyntaxHighlighter, input: seq<Event>, it: IterState)
    requires !it.finalized && it.pos >= |input| && it.lastAppend == []
    ensures IterNext(hl, input, it).Done? && IterNext(hl, input, it).value.0.finalized
    ensures it.s.footnotes == [] ==> IterNext(hl, input, it).value.1.None? && IterNext(hl, input, it).value.0.lastAppend == []
    ensures it.s.footnotes != [] ==>
      && IterNext(hl, input, it).value.1 == Some([Html(F.AsideOpen)])
      && IterNext(hl, input, it).value.0.lastAppend == F.ItemsEvents(F.SortedItems(it.s.footnotes, it.s.refs)) + [Html(F.AsideClose)]
  {
    assert IterNext(hl, input, it) == Done(Finalize(it));
    if it.s.footnotes == [] {
      FinalizeWithoutDefinitions(it);
    } else {
      FinalizeWithDefinitions(it);
    }
  }

  lemma FinalizeWithoutDefinitions(it: IterState)
    requires it.s.footnotes == []
    ensures Finalize(it).0.finalized && Finalize(it).1.None? && Finalize(it).0.lastAppend == []
  {
    FinalizationListShape(it.s);
  }

  lemma FinalizeWithDefinitions(it: IterState)
    requires it.s.footnotes != []
    ensures Finalize(it).0.finalized && Finalize(it).1 == Some([Html(F.AsideOpen)])
    ensures Finalize(it).0.lastAppend == F.ItemsEvents(F.SortedItems(it.s.footnotes, it.s.refs)) + [Html(F.AsideClose)]
  {
    FinalizationListShape(it.s);
    var list := FinalizationList(it.s);
    var rest := F.ItemsEvents(F.SortedItems(it.s.footnotes, it.s.refs)) + [Html(F.AsideClose)];
    assert list == [Html(F.AsideOpen)] + rest;
    assert list[0] == Html(F.AsideOpen) && list[1..] == rest;
  }

  /** While tokens or queued events remain, a call does not finalize. */
  lemma OnlyFinalizesWhenExhausted(hl: CB.SyntaxHighlighter, input: seq<Event>, it: IterState)
    requires it.pos < |input| || |it.lastAppend| > 0
    ensures IterNext(hl, input, it).Done? ==> IterNext(hl, input, it).value.0.finalized == it.finalized
  {
  }

  /**
   * Once finalized the iterator never finalizes again: it stays finalized,
   * the queue only shrinks from the front, and when it is empty every call
   * returns nothing and changes nothing.
   */
  lemma FinalizedOnce(hl: CB.SyntaxHighlighter, input: seq<Event>, it: IterState)
    requires it.finalized
    ensures IterNext(hl, input, it).Done? ==>
      && IterNext(hl, input, it).value.0.finalized
      && |IterNext(hl, input, it).value.0.lastAppend| <= |it.lastAppend|
      && IterNext(hl, input, it).value.0.lastAppend == it.lastAppend[|it.lastAppend| - |IterNext(hl, input, it).value.0.lastAppend|..]
    ensures it.pos >= |input| && it.lastAppend == [] ==> IterNext(hl, input, it) == Done((it, None))
  {
  }

  /** After finalization the queued events flow through the steps like tokens. */
  lemma QueuedEventsAreProcessed(hl: CB.SyntaxHighlighter, input: seq<Event>, it: IterState)
    requires it.pos >= |input| && |it.lastAppend| > 0
    ensures IterNext(hl, input, it) == Consume(hl, it.(lastAppend := it.lastAppend[1..]), it.lastAppend[0])
  {
  }

  /** `MarkdownParserIter` and the parse result it writes its front matter into. */
  class MarkdownParserIter {
    const highlighter: CB.SyntaxHighlighter
    /** The tokenizer's events, and how many of them were taken. */
    const input: seq<Event>
    var pos: nat
    var parsing: Parsing
    var ignore: Option<C.Ignore>
    var frontmatter: Option<string>
    var finalized: bool
    var footnotes: seq<F.FootNoteDefinition>
    var footnoteRefs: seq<F.FootNoteRef>
    var lastAppend: seq<Event>

    function State(): ParserState
      reads this
    {
      ParserState(parsing, ignore, footnotes, footnoteRefs, frontmatter)
    }

    function Iter(): IterState
      reads this
    {
      IterState(State(), pos, lastAppend, finalized)
    }

    constructor (hl: CB.SyntaxHighlighter, events: seq<Event>)
      ensures highlighter == hl && input == events
      ensures Iter() == IterState(Initial, 0, [], false)
    {
      highlighter, input := hl, events;
      pos, parsing, ignore, frontmatter := 0, Content, None, None;
      finalized, footnotes, footnoteRefs, lastAppend := false, [], [], [];
    }

    /** `update_content_parse`. */
    method UpdateContentParse(e: Event) returns (p: Option<EventProcess>)
      modifies this
      ensures (State(), p) == ContentStep(old(State()), e)
      ensures pos == old(pos) && lastAppend == old(lastAppend) && finalized == old(finalized)
    {
      if parsing != Content {
        return None;
      }
      if e == TomlStart {
        parsing := FrontmatterPrelude;
        p := Some(Discard);
      } else if e.Text? {
        p := Some(IgnoreNext(C.ForNextIf(1, IsSoftBreak)));
      } else if IsFencedStart(e) {
        parsing := SyntaxHighlightPrelude(e.tag.codeKind.lang);
        p := Some(Discard);
      } else {
        p := None;
      }
    }

    /** `update_toml_parse`. */
    method UpdateTomlParse(e: Event) returns (r: Outcome<Option<EventProcess>>)
      modifies this
      ensures r.Panic? <==> TomlStep(old(State()), e).Panic?
      ensures r.Done? ==> (State(), r.value) == TomlStep(old(State()), e).value
      ensures pos == old(pos) && lastAppend == old(lastAppend) && finalized == old(finalized)
    {
      match parsing {
        case FrontmatterPrelude =>
          if e.Text? {
            frontmatter := Some(e.text);
            parsing := FrontmatterAfter;
            return Done(Some(Discard));
          }
          return Panic(FrontmatterTextMessage);
        case FrontmatterAfter =>
          if e == TomlEnd {
            parsing := Content;
            return Done(Some(Discard));
          }
          return Panic(FrontmatterEndMessage);
        case _ =>
          return Done(None);
      }
    }

    /** `update_syntaxhighlight_parse`. */
    method UpdateSyntaxhighlightParse(e: Event) returns (r: Outcome<Option<EventProcess>>)
      modifies this
      ensures r.Panic? <==> SyntaxStep(highlighter, old(State()), e).Panic?
      ensures r.Done? ==> (State(), r.value) == SyntaxStep(highlighter, old(State()), e).value
      ensures pos == old(pos) && lastAppend == old(lastAppend) && finalized == old(finalized)
    {
      ghost var s0 := State();
      if parsing.SyntaxHighlightPrelude? {
        var lang := parsing.lang;
        if e == End(CodeBlockEnd) {
          parsing := Content;
          assert State() == s0.(parsing := Content);
          return Done(Some(Discard));
        }
        if !e.Text? {
          return Panic(CodeBlockMessage);
        }
        parsing := SyntaxHighlightAfter;
        var html := CB.GenerateHighlightedHtml(highlighter, lang, e.text);
        assert State() == s0.(parsing := SyntaxHighlightAfter);
        return Done(Some(UseHtml(html)));
      } else if parsing.SyntaxHighlightAfter? {
        if e == End(CodeBlockEnd) {
          parsing := Content;
          assert State() == s0.(parsing := Content);
          return Done(Some(Discard));
        }
        return Panic(CodeBlockMessage);
      }
      r := Done(None);
    }

    /** `update_footnote_parse`. */
    method UpdateFootnoteParse(e: Event) returns (r: Outcome<Option<EventProcess>>)
      modifies this
      ensures r.Panic? <==> FootnoteStep(old(State()), e).Panic?
      ensures r.Done? ==> (State(), r.value) == FootnoteStep(old(State()), e).value
      ensures pos == old(pos) && lastAppend == old(lastAppend) && finalized == old(finalized)
    {
      if parsing == Footnotes {
        if e == F.DefinitionEnd {
          parsing := Content;
          return Done(Some(Discard));
        }
        if |footnotes| == 0 {
          return Panic(FootnoteMessage);
        }
        var last := footnotes[|footnotes| - 1];
        AppendToLastIsUpdate(footnotes, e);
        footnotes := footnotes[|footnotes| - 1 := last.(events := last.events + [e])];
        return Done(Some(Discard));
      }
      if e.FootnoteReference? {
        var html := AddFootnoteReference(e.id);
        return Done(Some(UseHtml(html)));
      }
      if F.IsDefinitionStart(e) {
        parsing := Footnotes;
        footnotes := footnotes + [F.FootNoteDefinition(e.tag.id, [])];
        return Done(Some(Discard));
      }
      r := Done(None);
    }

    /** The reference counting inside `update_footnote_parse`. */
    method AddFootnoteReference(id: string) returns (html: string)
      modifies this
      ensures footnoteRefs == F.AddReference(old(footnoteRefs), id).0
      ensures html == F.ReferenceHtml(id, footnoteRefs[F.AddReference(old(footnoteRefs), id).1].refCount,
                                      F.AddReference(old(footnoteRefs), id).1)
      ensures parsing == old(parsing) && ignore == old(ignore) && frontmatter == old(frontmatter)
      ensures footnotes == old(footnotes) && pos == old(pos) && lastAppend == old(lastAppend) && finalized == old(finalized)
    {
      var index := 0;
      while index < |footnoteRefs| && footnoteRefs[index].id != id
        invariant 0 <= index <= |footnoteRefs|
        invariant forall k :: 0 <= k < index ==> footnoteRefs[k].id != id
      {
        index := index + 1;
      }
      if index == |footnoteRefs| {
        footnoteRefs := footnoteRefs + [F.FootNoteRef(id, 0)];
      }
      footnoteRefs := footnoteRefs[index := footnoteRefs[index].(refCount := footnoteRefs[index].refCount + 1)];
      html := F.ReferenceHtml(id, footnoteRefs[index].refCount, index);
    }

    /** The steps in order, then what their answer makes of the event. */
    method ProcessEvent(e: Event) returns (r: Outcome<seq<Event>>)
      modifies this
      ensures r.Panic? <==> EventStep(highlighter, old(State()), e).Panic?
      ensures r.Done? ==> (State(), r.value) == EventStep(highlighter, old(State()), e).value
      ensures pos == old(pos) && lastAppend == old(lastAppend) && finalized == old(finalized)
    {
      if ignore.Some? {
        var n := C.IgnoreNext(ignore.value, e);
        ignore := n.1;
        if n.0 {
          return Done([]);
        }
      }
      var q := Steps(e);
      if q.Panic? {
        return Panic(q.message);
      }
      var p := q.value;
      match p {
        case None => r := Done([e]);
        case Some(Discard) => r := Done([]);
        case Some(IgnoreNext(i)) =>
          ignore := Some(i);
          r := Done([e]);
        case Some(UseAsIs) => r := Done([e]);
        case Some(UseThisInstead(v)) => r := Done(v);
      }
    }

    /** The `or_else` chain of the four steps. */
    method Steps(e: Event) returns (r: Outcome<Option<EventProcess>>)
      modifies this
      ensures r.Panic? <==> Process(highlighter, old(State()), e).Panic?
      ensures r.Done? ==> (State(), r.value) == Process(highlighter, old(State()), e).value
      ensures pos == old(pos) && lastAppend == old(lastAppend) && finalized == old(finalized)
    {
      var t := UpdateTomlParse(e);
      if t.Panic? {
        return Panic(t.message);
      }
      if t.value.Some? {
        return t;
      }
      var c := UpdateContentParse(e);
      if c.Some? {
        return Done(c);
      }
      var y := UpdateSyntaxhighlightParse(e);
      if y.Panic? || y.value.Some? {
        return y;
      }
      r := UpdateFootnoteParse(e);
    }

    /** `finalization`: the footnote list, queued. The definitions' events move into it. */
    method Finalization()
      modifies this
      ensures lastAppend == FinalizationList(old(State()))
      ensures footnotes == F.Drained(old(footnotes))
      ensures parsing == old(parsing) && ignore == old(ignore) && frontmatter == old(frontmatter)
      ensures footnoteRefs == old(footnoteRefs) && pos == old(pos) && finalized == old(finalized)
    {
      FinalizationListShape(State());
      var events: seq<Event> := [];
      if |footnotes| > 0 {
        var sorted := S.StableSortByKey(F.SortItems(footnotes, footnoteRefs), F.ListKey(|footnoteRefs|));
        events := F.ListEvents(sorted);
        footnotes := F.Drained(footnotes);
      }
      lastAppend := events;
    }

    /** `Iterator::next`. */
    method Next() returns (r: Outcome<Option<seq<Event>>>)
      modifies this
      ensures r.Panic? <==> IterNext(highlighter, input, old(Iter())).Panic?
      ensures r.Done? ==> (Iter(), r.value) == IterNext(highlighter, input, old(Iter())).value
    {
      var event;
      if pos < |input| {
        event := input[pos];
        pos := pos + 1;
      } else if |lastAppend| > 0 {
        event := lastAppend[0];
        lastAppend := lastAppend[1..];
      } else {
        if finalized {
          return Done(None);
        }
        finalized := true;
        Finalization();
        if |lastAppend| == 0 {
          return Done(None);
        }
        var first := lastAppend[0];
        lastAppend := lastAppend[1..];
        return Done(Some([first]));
      }
      var batch := ProcessEvent(event);
      if batch.Panic? {
        return Panic(batch.message);
      }
      r := Done(Some(batch.value));
    }
  }
}
