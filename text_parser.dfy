/**
 * The text sub-parser: every text event becomes HTML with its emoji
 * shortcodes replaced, and asks for a directly following soft break to be
 * dropped. Shortcodes are resolved through a cache that lives as long as
 * the parser.
 */
module TextParser {
  import opened Wrappers
  import opened Strings
  import opened Template
  import opened Events
  import opened Control
  import opened Emoji

  /** `EmojiReplacer::emoji_to_html_tag`: the multi-line image tag with the `emoji` class. */
  function TextEmojiTag(e: string): (r: string)
    ensures StartsWithAt(r, 0, "<img\n                src=\"" + AssetUrl(e) + "\" \n                class=\"emoji\"\n")
  {
    "<img\n                src=\"" + AssetUrl(e) + "\" \n                class=\"emoji\"\n                alt=\""
      + e + "\" \n                draggable=false\n            >"
  }

  /** The HTML a text becomes: every shortcode replaced by its tag or its unresolved marker. */
  function ReplaceText(ds: Dataset, text: string): string {
    Fill(Shortcode, text, Resolver(ds, TextEmojiTag))
  }

  /** `ignore_if_softbreak`. */
  const SoftBreakIgnore: Ignore := ForNextIf(1, IsSoftBreak)

  /** The answer of the text sub-parser to one event. */
  function TextControl(ds: Dataset, e: Event): (c: EventProcessControl)
    ensures c.Continue?
    ensures e.Text? <==> c.next.replacement.Some?
    ensures e.Text? <==> c.next.ignore.Some?
    ensures e.Text? ==> c.next == Next(Some(Html(ReplaceText(ds, e.text))), Some(SoftBreakIgnore))
  {
    if e.Text? then UseNextWith(Next(Some(Html(ReplaceText(ds, e.text))), Some(SoftBreakIgnore)))
    else UseNext()
  }

  /** The ignore a text arms drops a soft break right after it and nothing else. */
  lemma SoftBreakIgnoreMeaning(e: Event)
    ensures IgnoreNext(SoftBreakIgnore, e) == (e == SoftBreak, None)
  {
  }

  /** `EmojiReplacer`: the shortcodes seen so far, with what each was replaced by. */
  class EmojiReplacer {
    const dataset: Dataset
    var discovered: map<string, string>

    ghost predicate Valid()
      reads this
    {
      CacheAgrees(dataset, TextEmojiTag, discovered)
    }

    constructor (ds: Dataset)
      ensures dataset == ds && discovered == map[] && Valid()
    {
      dataset := ds;
      discovered := map[];
    }

    /**
     * `EmojiReplacer::replace`: the text with its shortcodes replaced. Only
     * shortcodes not discovered before are looked up (returned in `looked`,
     * in order, each once); they are discovered afterwards.
     */
    method Replace(text: string) returns (r: string, looked: seq<string>)
      requires Valid()
      modifies this
      ensures Valid()
      ensures r == ReplaceText(dataset, text)
      ensures forall m :: m in discovered <==> m in old(discovered) || m in ParseUsed(Shortcode, text)
      ensures looked == NewNames(ParseUsed(Shortcode, text), old(discovered).Keys)
    {
      var cache;
      r, cache, looked := FillCached(dataset, TextEmojiTag, text, discovered);
      discovered := cache;
    }
  }

  /** `TextParser`: the text sub-parser and its replacer. */
  class TextSubParser {
    const emoji: EmojiReplacer

    ghost predicate Valid()
      reads this, emoji
    {
      emoji.Valid()
    }

    constructor (ds: Dataset)
      ensures fresh(emoji) && emoji.dataset == ds && emoji.discovered == map[] && Valid()
    {
      emoji := new EmojiReplacer(ds);
    }

    /** `TextParser::receive_event`. */
    method ReceiveEvent(e: Event) returns (c: EventProcessControl)
      requires Valid()
      modifies emoji
      ensures Valid()
      ensures c == TextControl(emoji.dataset, e)
      ensures e.Text? ==> forall m :: m in emoji.discovered <==> m in old(emoji.discovered) || m in ParseUsed(Shortcode, e.text)
      ensures !e.Text? ==> emoji.discovered == old(emoji.discovered)
    {
      if e.Text? {
        var html, _ := emoji.Replace(e.text);
        c := UseNextWith(Next(Some(Html(html)), Some(SoftBreakIgnore)));
      } else {
        c := UseNext();
      }
    }
  }
}
