/**
 * The code-block sub-parser: a fenced code block is replaced by highlighted
 * HTML. Highlighting itself is foreign, a function of the syntax found for
 * the block's language and of its text.
 */
module CodeBlock {
  import opened Wrappers
  import opened Events
  import opened Control

  /** A syntax definition, by name. */
  type SyntaxName = string

  /** A syntax set, reduced to the two lookups the sub-parser makes and its plain-text syntax. */
  datatype SyntaxSet = SyntaxSet(byName: map<string, SyntaxName>, byExtension: map<string, SyntaxName>, plainText: SyntaxName)

  /** The syntax set and the highlighting function (theme included). */
  datatype SyntaxHighlighter = SyntaxHighlighter(syntaxes: SyntaxSet, highlight: (SyntaxName, string) -> string)

  /**
   * `find_language`: plain text for an empty language, else the syntax of
   * that name, else of that extension, else plain text with a warning. The
   * second component says whether the warning is logged.
   */
  function FindLanguage(syntaxes: SyntaxSet, lang: string): (r: (SyntaxName, bool))
    ensures r.1 <==> lang != "" && lang !in syntaxes.byName && lang !in syntaxes.byExtension
    ensures r.0 == syntaxes.plainText || r.0 in syntaxes.byName.Values || r.0 in syntaxes.byExtension.Values
    ensures lang != "" && lang in syntaxes.byName ==> r.0 == syntaxes.byName[lang]
    ensures lang != "" && lang !in syntaxes.byName && lang in syntaxes.byExtension ==> r.0 == syntaxes.byExtension[lang]
    ensures lang == "" || r.1 ==> r.0 == syntaxes.plainText
  {
    if lang == "" then (syntaxes.plainText, false)
    else if lang in syntaxes.byName then (syntaxes.byName[lang], false)
    else if lang in syntaxes.byExtension then (syntaxes.byExtension[lang], false)
    else (syntaxes.plainText, true)
  }

  /** `generate_highlighted_html`: the highlighted text inside `<code class="block">`. */
  function GenerateHighlightedHtml(hl: SyntaxHighlighter, lang: string, content: string): string {
    "<code class=\"block\">" + hl.highlight(FindLanguage(hl.syntaxes, lang).0, content) + "</code>"
  }

  datatype CodeBlockParseState = CodeBlockParseState(lang: string, hasContent: bool)

  /** `CodeBlockSubParser::receive_event` on a state, as a value. */
  function CodeBlockStep(hl: SyntaxHighlighter, st: Option<CodeBlockParseState>, e: Event)
    : (r: Outcome<(Option<CodeBlockParseState>, EventProcessControl)>)
    ensures st.None? ==> r.Done?
    ensures st.None? && !(e.Start? && e.tag.CodeBlock? && e.tag.codeKind.Fenced?) ==> r == Done((None, UseNext()))
    ensures st.Some? ==> (r.Done? <==> e.Text? || e == End(CodeBlockEnd))
    ensures st.Some? && r.Done? ==> r.value.1.Break?
    ensures st.Some? && e.Text? ==> r == Done((Some(CodeBlockParseState(st.value.lang, true)),
                                               UseHtml(GenerateHighlightedHtml(hl, st.value.lang, e.text))))
    ensures st.Some? && e == End(CodeBlockEnd) ==> r.Done? && r.value.0.None?
  {
    match st
    case None =>
      if e.Start? && e.tag.CodeBlock? && e.tag.codeKind.Fenced? then
        Done((Some(CodeBlockParseState(e.tag.codeKind.lang, false)), DiscardControl()))
      else Done((None, UseNext()))
    case Some(s) =>
      if e.Text? then
        Done((Some(CodeBlockParseState(s.lang, true)), UseHtml(GenerateHighlightedHtml(hl, s.lang, e.text))))
      else if e == End(CodeBlockEnd) then
        Done((None, if s.hasContent then DiscardControl() else UseHtml(GenerateHighlightedHtml(hl, "", ""))))
      else Panic("Unexpected event during parsing")
  }

  /** The sub-parser fed a stream of events: the final state and every answer, or the first abort. */
  function CodeBlockRun(hl: SyntaxHighlighter, st: Option<CodeBlockParseState>, es: seq<Event>)
    : Outcome<(Option<CodeBlockParseState>, seq<EventProcessControl>)>
  {
    if |es| == 0 then Done((st, []))
    else
      match CodeBlockRun(hl, st, es[..|es| - 1])
      case Panic(m) => Panic(m)
      case Done(acc) =>
        match CodeBlockStep(hl, acc.0, es[|es| - 1])
        case Panic(m) => Panic(m)
        case Done(step) => Done((step.0, acc.1 + [step.1]))
  }

  predicate AllTexts(es: seq<Event>) { forall k :: 0 <= k < |es| ==> es[k].Text? }

  /** Each text of a block, highlighted in the block's language. */
  function HighlightedTexts(hl: SyntaxHighlighter, lang: string, texts: seq<Event>): (r: seq<EventProcessControl>)
    requires AllTexts(texts)
    ensures |r| == |texts|
  {
    seq(|texts|, k requires 0 <= k < |texts| => UseHtml(GenerateHighlightedHtml(hl, lang, texts[k].text)))
  }

  /** An open block with some texts: each text is highlighted and the block records that it has content. */
  lemma {:induction false} OpenBlockRun(hl: SyntaxHighlighter, lang: string, texts: seq<Event>)
    requires AllTexts(texts)
    ensures CodeBlockRun(hl, None, [Start(CodeBlock(Fenced(lang)))] + texts) ==
      Done((Some(CodeBlockParseState(lang, |texts| > 0)), [DiscardControl()] + HighlightedTexts(hl, lang, texts)))
  {
    var es := [Start(CodeBlock(Fenced(lang)))] + texts;
    if |texts| == 0 {
      assert es == [Start(CodeBlock(Fenced(lang)))];
      assert es[..0] == [];
      assert HighlightedTexts(hl, lang, texts) == [];
      assert [DiscardControl()] + [] == [] + [DiscardControl()] == [DiscardControl()];
    } else {
      var init := texts[..|texts| - 1];
      OpenBlockRun(hl, lang, init);
      assert es[..|es| - 1] == [Start(CodeBlock(Fenced(lang)))] + init;
      assert es[|es| - 1] == texts[|texts| - 1];
      var c := UseHtml(GenerateHighlightedHtml(hl, lang, texts[|texts| - 1].text));
      assert HighlightedTexts(hl, lang, texts) == HighlightedTexts(hl, lang, init) + [c];
      assert CodeBlockStep(hl, Some(CodeBlockParseState(lang, |init| > 0)), texts[|texts| - 1]) ==
        Done((Some(CodeBlockParseState(lang, true)), c));
      assert ([DiscardControl()] + HighlightedTexts(hl, lang, init)) + [c] == [DiscardControl()] + HighlightedTexts(hl, lang, texts);
    }
  }

  /**
   * A whole fenced block: the opening tag is removed, each text becomes
   * highlighted HTML, and the closing tag is removed, or stands for an
   * empty highlighted block when there was no text. The parser is idle again.
   */
  lemma FencedBlockRun(hl: SyntaxHighlighter, lang: string, texts: seq<Event>)
    requires AllTexts(texts)
    ensures CodeBlockRun(hl, None, [Start(CodeBlock(Fenced(lang)))] + texts + [End(CodeBlockEnd)]) ==
      Done((None, [DiscardControl()] + HighlightedTexts(hl, lang, texts) +
                  [if |texts| > 0 then DiscardControl() else UseHtml(GenerateHighlightedHtml(hl, "", ""))]))
  {
    var es := [Start(CodeBlock(Fenced(lang)))] + texts + [End(CodeBlockEnd)];
    OpenBlockRun(hl, lang, texts);
    assert es[..|es| - 1] == [Start(CodeBlock(Fenced(lang)))] + texts;
  }

  /** `CodeBlockSubParser`. */
  class CodeBlockSubParser {
    var parseState: Option<CodeBlockParseState>
    const highlighter: SyntaxHighlighter

    constructor (hl: SyntaxHighlighter)
      ensures parseState == None && highlighter == hl
    {
      parseState := None;
      highlighter := hl;
    }

    /** `receive_event`: the step above, on the fields. */
    method ReceiveEvent(e: Event) returns (r: Outcome<EventProcessControl>)
      modifies this
      ensures CodeBlockStep(highlighter, old(parseState), e).Panic? ==> r.Panic?
      ensures CodeBlockStep(highlighter, old(parseState), e).Done? ==>
        r == Done(CodeBlockStep(highlighter, old(parseState), e).value.1) &&
        parseState == CodeBlockStep(highlighter, old(parseState), e).value.0
    {
      match parseState {
        case None =>
          if e.Start? && e.tag.CodeBlock? && e.tag.codeKind.Fenced? {
            parseState := Some(CodeBlockParseState(e.tag.codeKind.lang, false));
            r := Done(DiscardControl());
          } else {
            r := Done(UseNext());
          }
        case Some(state) =>
          if e.Text? {
            var html := GenerateHighlightedHtml(highlighter, state.lang, e.text);
            parseState := Some(CodeBlockParseState(state.lang, true));
            r := Done(UseHtml(html));
          } else if e == End(CodeBlockEnd) {
            parseState := None;
            if state.hasContent {
              r := Done(DiscardControl());
            } else {
              r := Done(UseHtml(GenerateHighlightedHtml(highlighter, "", "")));
            }
          } else {
            r := Panic("Unexpected event during parsing");
          }
      }
    }
  }
}
