/**
 * The chain of sub-parsers: each event is offered to the code-block,
 * footnote, front-matter and text sub-parsers in that order. The first
 * `Break` ends the chain; otherwise each sub-parser sees the replacement
 * produced so far (or the event itself) and the `Next` values are merged.
 */
module SubParsers {
  import opened Wrappers
  import opened Events
  import opened Control
  import opened CodeBlock
  import opened Footnote
  import opened Frontmatter
  import opened Emoji
  import opened TextParser

  /** The states of the sub-parsers whose answers depend on their state. */
  datatype ChainState = ChainState(code: Option<CodeBlockParseState>, footnote: FootnoteState, frontmatter: FrontmatterState)

  /**
   * `SubParsers::receive_event` as a value: each stage sees `NextEvent` of
   * the merge so far; a `Break` is returned at once with the later stages
   * untouched; the merge of two ignores aborts.
   */
  function ChainStep(hl: SyntaxHighlighter, ds: Dataset, s: ChainState, e: Event)
    : Outcome<(ChainState, EventProcessControl)>
  {
    var n0 := NoNext;
    match CodeBlockStep(hl, s.code, NextEvent(n0, e))
    case Panic(m) => Panic(m)
    case Done(r1) =>
      var code := r1.0;
      if r1.1.Break? then Done((s.(code := code), r1.1))
      else
        match UpdateBy(n0, r1.1.next)
        case Panic(m) => Panic(m)
        case Done(n1) =>
          var r2 := FootnoteStep(s.footnote, NextEvent(n1, e));
          if r2.1.Break? then Done((ChainState(code, r2.0, s.frontmatter), r2.1))
          else
            match UpdateBy(n1, r2.1.next)
            case Panic(m) => Panic(m)
            case Done(n2) =>
              match FrontmatterStep(s.frontmatter, NextEvent(n2, e))
              case Panic(m) => Panic(m)
              case Done(r3) =>
                if r3.1.Break? then Done((ChainState(code, r2.0, r3.0), r3.1))
                else
                  match UpdateBy(n2, r3.1.next)
                  case Panic(m) => Panic(m)
                  case Done(n3) =>
                    match UpdateBy(n3, TextControl(ds, NextEvent(n3, e)).next)
                    case Panic(m) => Panic(m)
                    case Done(n4) => Done((ChainState(code, r2.0, r3.0), Continue(n4)))
  }

  /**
   * The chain described stage by stage: the first three sub-parsers see the
   * event itself, since none of them continues with anything but the empty
   * `Next`; the first to break decides; if none breaks, the answer is the
   * text sub-parser's.
   */
  function ChainReference(hl: SyntaxHighlighter, ds: Dataset, s: ChainState, e: Event)
    : Outcome<(ChainState, EventProcessControl)>
  {
    match CodeBlockStep(hl, s.code, e)
    case Panic(m) => Panic(m)
    case Done(r1) =>
      if r1.1.Break? then Done((s.(code := r1.0), r1.1))
      else
        var r2 := FootnoteStep(s.footnote, e);
        if r2.1.Break? then Done((ChainState(r1.0, r2.0, s.frontmatter), r2.1))
        else
          match FrontmatterStep(s.frontmatter, e)
          case Panic(m) => Panic(m)
          case Done(r3) =>
            if r3.1.Break? then Done((ChainState(r1.0, r2.0, r3.0), r3.1))
            else Done((ChainState(r1.0, r2.0, r3.0), TextControl(ds, e)))
  }

  /**
   * The chain is the stage-by-stage description: no sub-parser before the
   * text one replaces the event or asks for an ignore, so the merge never
   * aborts, and the chain aborts only when a sub-parser does.
   */
  lemma ChainStepIsReference(hl: SyntaxHighlighter, ds: Dataset, s: ChainState, e: Event)
    ensures ChainStep(hl, ds, s, e) == ChainReference(hl, ds, s, e)
  {
    assert NextEvent(NoNext, e) == e;
    var r1 := CodeBlockStep(hl, s.code, e);
    if r1.Done? && r1.value.1.Continue? {
      assert r1.value.1 == UseNext();
      var r2 := FootnoteStep(s.footnote, e);
      if r2.1.Continue? {
        assert r2.1 == UseNext();
        var r3 := FrontmatterStep(s.frontmatter, e);
        if r3.Done? && r3.value.1.Continue? {
          assert r3.value.1 == UseNext();
          assert UpdateBy(NoNext, NoNext) == Done(NoNext);
          assert TextControl(ds, e) == Continue(TextControl(ds, e).next);
        }
      }
    }
  }

  /** The `Next` the chain continues with is the merge of the four answers, in order. */
  lemma ChainContinueIsMerge(hl: SyntaxHighlighter, ds: Dataset, s: ChainState, e: Event)
    requires ChainStep(hl, ds, s, e).Done? && ChainStep(hl, ds, s, e).value.1.Continue?
    ensures MergeAll([NoNext, NoNext, NoNext, TextControl(ds, e).next]).Done?
    ensures ChainStep(hl, ds, s, e).value.1.next == MergeAll([NoNext, NoNext, NoNext, TextControl(ds, e).next]).value
    ensures ChainStep(hl, ds, s, e).value.1.next == TextControl(ds, e).next
  {
    ChainStepIsReference(hl, ds, s, e);
    var ns := [NoNext, NoNext, NoNext, TextControl(ds, e).next];
    assert ns[..1][..0] == [];
    assert MergeAll(ns[..1]) == Done(NoNext);
    assert ns[..2][..1] == ns[..1];
    assert MergeAll(ns[..2]) == Done(NoNext);
    assert ns[..3][..2] == ns[..2];
    assert MergeAll(ns[..3]) == Done(NoNext);
    assert ns[..4] == ns;
  }

  /** Events inside a fenced code block never reach the other sub-parsers. */
  lemma CodeBlockShields(hl: SyntaxHighlighter, ds: Dataset, s: ChainState, e: Event)
    requires s.code.Some?
    ensures ChainStep(hl, ds, s, e).Done? ==>
      ChainStep(hl, ds, s, e).value.0.footnote == s.footnote &&
      ChainStep(hl, ds, s, e).value.0.frontmatter == s.frontmatter &&
      ChainStep(hl, ds, s, e).value.1.Break?
  {
    ChainStepIsReference(hl, ds, s, e);
  }

  /** `SubParsers`: the four sub-parsers. */
  class SubParserChain {
    const codeBlock: CodeBlockSubParser
    const footnote: FootnoteSubParser
    const frontmatter: FrontmatterSubParser
    const text: TextSubParser

    ghost predicate Valid()
      reads this, text, text.emoji
    {
      text.Valid()
    }

    function State(): ChainState
      reads this, codeBlock, footnote, frontmatter
    {
      ChainState(codeBlock.parseState, footnote.State(), frontmatter.State())
    }

    constructor (hl: SyntaxHighlighter, ds: Dataset)
      ensures Valid() && State() == ChainState(None, Footnote.Initial, Frontmatter.Initial)
      ensures codeBlock.highlighter == hl && text.emoji.dataset == ds && text.emoji.discovered == map[]
    {
      codeBlock := new CodeBlockSubParser(hl);
      footnote := new FootnoteSubParser();
      frontmatter := new FrontmatterSubParser();
      text := new TextSubParser(ds);
    }

    /** `SubParsers::receive_event`: the chain above, on the four sub-parsers. */
    method ReceiveEvent(e: Event) returns (r: Outcome<EventProcessControl>)
      requires Valid()
      modifies codeBlock, footnote, frontmatter, text.emoji
      ensures Valid()
      ensures ChainStep(codeBlock.highlighter, text.emoji.dataset, old(State()), e).Panic? ==> r.Panic?
      ensures ChainStep(codeBlock.highlighter, text.emoji.dataset, old(State()), e).Done? ==>
        r == Done(ChainStep(codeBlock.highlighter, text.emoji.dataset, old(State()), e).value.1) &&
        State() == ChainStep(codeBlock.highlighter, text.emoji.dataset, old(State()), e).value.0
    {
      var next := NoNext;
      var c1 := codeBlock.ReceiveEvent(NextEvent(next, e));
      match c1 {
        case Panic(m) => return Panic(m);
        case Done(c) =>
          if c.Break? {
            return Done(c);
          }
          match UpdateBy(next, c.next) {
            case Panic(m) => return Panic(m);
            case Done(n) => next := n;
          }
      }
      var c2 := footnote.ReceiveEvent(NextEvent(next, e));
      if c2.Break? {
        return Done(c2);
      }
      match UpdateBy(next, c2.next) {
        case Panic(m) => return Panic(m);
        case Done(n) => next := n;
      }
      var c3 := frontmatter.ReceiveEvent(NextEvent(next, e));
      match c3 {
        case Panic(m) => return Panic(m);
        case Done(c) =>
          if c.Break? {
            return Done(c);
          }
          match UpdateBy(next, c.next) {
            case Panic(m) => return Panic(m);
            case Done(n) => next := n;
          }
      }
      var c4 := text.ReceiveEvent(NextEvent(next, e));
      match UpdateBy(next, c4.next) {
        case Panic(m) => return Panic(m);
        case Done(n) => next := n;
      }
      r := Done(Continue(next));
    }

    /** `SubParsers::finalize`: only the footnote sub-parser has events to add. */
    method Finalize() returns (events: seq<Event>)
      modifies footnote
      ensures events == FinalizeEvents(old(footnote.State())).GetOr([])
    {
      var fs := footnote.Finalize();
      events := [] + fs.GetOr([]);
    }
  }
}
