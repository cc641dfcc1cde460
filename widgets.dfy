/**
 * The AI-usage badge of an article: seven levels, each with an English
 * brief and a Japanese description; the three heaviest are marked with
 * the `aiusage-heavy` class.
 */
module WidgetsAi {
  import opened Strings

  /** `AiUsage`. */
  datatype AiUsage = Unused | Review | NonText | ResearchSupport | Research | ArticleOutlining | MainText

  /** `#[default]`. */
  const DefaultUsage := Unused

  const Tag := "ai"

  /** `AiUsage::description`: the brief and the description. */
  function Description(a: AiUsage): (string, string) {
    match a
    case Unused => ("AI not used", "この記事では AI は使っていません")
    case Review => ("AI used for review", "この記事は推敲に AI を使っています")
    case NonText => ("AI generated non-text contents", "テキスト以外のコンテンツで AI を使っています")
    case ResearchSupport => ("AI supported researching for this", "この記事を書くにあたって、AI と協力して調査しました")
    case Research => ("AI researched for this", "この記事を書くにあたって、AI に調査してもらいました")
    case ArticleOutlining => ("AI generated the outline", "記事の構成作成に AI を使っています")
    case MainText => ("AI generated the outline", "本文作成に AI を使っています")
  }

  /** `MainText` reuses the outline brief; only its description tells the two apart. */
  lemma MainTextBrief()
    ensures Description(MainText).0 == Description(ArticleOutlining).0
    ensures Description(MainText).1 != Description(ArticleOutlining).1
  {
    assert Description(MainText).1[0] != Description(ArticleOutlining).1[0];
  }

  /** `AiUsage::heavy_use`. */
  predicate HeavyUse(a: AiUsage) {
    match a
    case Research | ArticleOutlining | MainText => true
    case _ => false
  }

  /** The extra class of the badge. */
  function HeavyClass(a: AiUsage): (c: string)
    ensures c == "aiusage-heavy" <==> HeavyUse(a)
    ensures !HeavyUse(a) ==> c == ""
  {
    if HeavyUse(a) then "aiusage-heavy" else ""
  }

  const SpanOpen := "\n            <span class=\"aiusage "
  const AfterClass := "\">" + "\n                <span class=\"brief\">"
  const AfterBrief := "</span>" + "\n                <span class=\"description\">"
  const SpanClose := "</span>" + "\n            </span>" + "\n        "

  /** The badge markup around a class, a brief and a description. */
  function Badge(cls: string, brief: string, description: string): string {
    SpanOpen + cls + AfterClass + brief + AfterBrief + description + SpanClose
  }

  /**
   * `build` of the AI widget: nothing for `Unused`; otherwise the badge,
   * with the extra class and the description pair of the usage.
   */
  function Build(a: AiUsage): (r: string)
    ensures r == "" <==> a == Unused
    ensures a != Unused ==> r == Badge(HeavyClass(a), Description(a).0, Description(a).1)
  {
    if a == Unused then "" else Badge(HeavyClass(a), Description(a).0, Description(a).1)
  }

  /**
   * In a badge the class attribute is `aiusage` followed by the extra class
   * and nothing else, and the brief and the description appear in it.
   */
  lemma BadgeFields(c: string, b: string, d: string)
    ensures var r := Badge(c, b, d);
      && r[..|SpanOpen|] == SpanOpen
      && r[|SpanOpen|..|SpanOpen| + |c|] == c
      && r[|SpanOpen| + |c|] == '"'
      && Contains(r, b) && Contains(r, d)
  {
    AfterClassQuote();
    FieldOffsets(SpanOpen, c, AfterClass, b, AfterBrief, d, SpanClose);
    ContainsFields(SpanOpen, c, AfterClass, b, AfterBrief, d, SpanClose);
  }

  /** The class attribute is closed right after the extra class. */
  lemma AfterClassQuote()
    ensures |AfterClass| > 0 && AfterClass[0] == '"'
  {
  }

  /** The badge of a used level: `aiusage-heavy` in the class attribute exactly for the heavy uses. */
  lemma BuildFields(a: AiUsage)
    requires a != Unused
    ensures var r := Build(a);
      && r[|SpanOpen|..|SpanOpen| + |HeavyClass(a)|] == HeavyClass(a)
      && r[|SpanOpen| + |HeavyClass(a)|] == '"'
      && (HeavyUse(a) ==> r[|SpanOpen|..|SpanOpen| + 13] == "aiusage-heavy")
      && (!HeavyUse(a) ==> r[|SpanOpen|] == '"')
      && Contains(r, Description(a).0) && Contains(r, Description(a).1)
  {
    BadgeFields(HeavyClass(a), Description(a).0, Description(a).1);
  }

  const Style :=
    "\n            .aiusage {" +
    "\n                border: 1px solid var(--primary);" +
    "\n                color: var(--primary);" +
    "\n                padding: 0px 6px;" +
    "\n                width: fit-content;" +
    "\n" +
    "\n                &.aiusage-heavy {" +
    "\n                    background-color: var(--primary);" +
    "\n                    color: white;" +
    "\n                }" +
    "\n" +
    "\n                .brief {" +
    "\n                    font-style: italic;" +
    "\n                }" +
    "\n            }" +
    "\n        "
}

/** The article-type heading: an activity log or a study log. */
module WidgetsArticleType {
  import opened Strings

  /** `ArticleType`. */
  datatype ArticleType = Activity | Research

  /** `#[default]`. */
  const DefaultType := Activity

  const Tag := "type"

  /** `ArticleType::description`. */
  function Description(t: ArticleType): string {
    match t
    case Activity => "活動記録"
    case Research => "学習記録"
  }

  /** `ArticleType::class_name`. */
  function ClassName(t: ArticleType): string {
    match t
    case Activity => "article-activity"
    case Research => "article-research"
  }

  /** Both tables tell the two types apart. */
  lemma TablesDistinguish(t: ArticleType, u: ArticleType)
    ensures Description(t) == Description(u) <==> t == u
    ensures ClassName(t) == ClassName(u) <==> t == u
  {
    assert Description(Activity)[0] != Description(Research)[0];
    assert ClassName(Activity)[8] != ClassName(Research)[8];
  }

  const HeadingOpen := "\n            <h2 class=\"article-type\">" + "\n                "
  const HeadingClose := "\n            </h2>" + "\n        "

  /** `build` of the type widget: a heading holding the description (the class name is not used). */
  function Build(t: ArticleType): (r: string)
    ensures r == HeadingOpen + Description(t) + HeadingClose
    ensures Contains(r, Description(t))
  {
    ContainsPiece(HeadingOpen, Description(t), HeadingClose);
    HeadingOpen + Description(t) + HeadingClose
  }

  /** The type widget has no style of its own. */
  const Style := ""

  /** The heading tells the two types apart. */
  lemma BuildDistinguishes(t: ArticleType, u: ArticleType)
    ensures Build(t) == Build(u) <==> t == u
  {
    if Build(t) == Build(u) {
      var k := |HeadingOpen|;
      assert Build(t)[k] == Description(t)[0];
      assert Build(u)[k] == Description(u)[0];
      TablesDistinguish(t, u);
      assert Description(Activity)[0] != Description(Research)[0];
    }
  }
}

/** The list of sources an article cites. */
module WidgetsSources {
  import opened Wrappers
  import opened Strings

  /** `Source { name, url }`. */
  datatype Source = Source(name: string, url: string)

  /** `Sources(Vec<Source>)`; the default is the empty list. */
  datatype Sources = Sources(items: seq<Source>)

  const DefaultSources := Sources([])

  const Tag := "sources"

  /** `title` of the sources widget. */
  const Title := ("ARTICLE SOURCES", "この記事の参考文献")

  const ItemOpen := "\n            <li class=\"source\">" + "\n                <h4 class=\"name\">"
  const AfterName := "</h4>" + "\n                <a href="
  const AfterHref := "><span>"
  const ItemClose := "</span></a>" + "\n            </li>" + "\n        "

  /** `Source::to_html`: a list item with the name as heading and the url as both target and text. */
  function ToHtml(s: Source): string {
    ItemOpen + s.name + AfterName + s.url + AfterHref + s.url + ItemClose
  }

  /** An item holds the source's name and url. */
  lemma ToHtmlHolds(s: Source)
    ensures Contains(ToHtml(s), s.name) && Contains(ToHtml(s), s.url)
  {
    ContainsFields(ItemOpen, s.name, AfterName, s.url, AfterHref, s.url, ItemClose);
  }

  /** `map(to_html).collect::<String>()`. */
  function ItemsHtml(items: seq<Source>): string {
    ConcatMap(items, ToHtml)
  }

  /** Every item's markup appears in the list, and the items follow one another in order. */
  lemma ItemsHtmlContains(items: seq<Source>, k: nat)
    requires k < |items|
    ensures Contains(ItemsHtml(items), ToHtml(items[k]))
  {
    ConcatMapContains(items, k, ToHtml);
  }

  lemma ItemsHtmlAppend(a: seq<Source>, b: seq<Source>)
    ensures ItemsHtml(a + b) == ItemsHtml(a) + ItemsHtml(b)
  {
    ConcatMapAppend(a, b, ToHtml);
  }

  /** `build_content`: nothing for an empty list, else the items inside `<ul>`. */
  function BuildContent(s: Sources): (r: Option<string>)
    ensures r.None? <==> |s.items| == 0
    ensures r.Some? ==> r.value == "<ul>" + ItemsHtml(s.items) + "</ul>"
  {
    if |s.items| == 0 then None else Some("<ul>" + ItemsHtml(s.items) + "</ul>")
  }

  /** `content_style` of the sources widget. */
  const ContentStyle :=
    "\n            .source {" +
    "\n                color: var(--primary);" +
    "\n            }" +
    "\n" +
    "\n            .name {" +
    "\n                font-size: 1.25rem;" +
    "\n                font-weight: bold;" +
    "\n            }" +
    "\n        "
}

/**
 * The widgets of an article: the `Widget` interface for the three kinds,
 * the section every grounding widget is wrapped in, the placeholder values
 * for a page and the concatenated styles.
 */
module Widgets {
  import opened Wrappers
  import opened Strings
  import Ai = WidgetsAi
  import Type = WidgetsArticleType
  import Src = WidgetsSources

  /** The implementors of `Widget`: the two direct ones and `Sources` through `GroundingWidget`. */
  datatype Widget = AiWidget(usage: Ai.AiUsage) | TypeWidget(kind: Type.ArticleType) | SourcesWidget(sources: Src.Sources)

  const SectionOpen := "\n            <section>" + "\n              <h3>" + "\n                <span>"
  const BetweenTitles := "</span>" + "\n                <span>"
  const BeforeContent := "</span>" + "\n              </h3>" + "\n              <div class=\"content\">" + "\n                "
  const SectionClose := "\n              </div>" + "\n            </section>" + "\n        "

  /** The section markup around two titles and a content. */
  function Section(first: string, second: string, content: string): string {
    SectionOpen + first + BetweenTitles + second + BeforeContent + content + SectionClose
  }

  /**
   * `build` of the blanket `GroundingWidget` impl: nothing without content,
   * otherwise the section with the two titles as heading and the content
   * below.
   */
  function GroundingBuild(title: (string, string), content: Option<string>): (r: string)
    ensures r == "" <==> content.None?
    ensures content.Some? ==> r == Section(title.0, title.1, content.value)
  {
    match content
    case None => ""
    case Some(c) => Section(title.0, title.1, c)
  }

  /** The section holds both titles and the content. */
  lemma SectionHolds(a: string, b: string, c: string)
    ensures Contains(Section(a, b, c), a) && Contains(Section(a, b, c), b) && Contains(Section(a, b, c), c)
  {
    ContainsFields(SectionOpen, a, BetweenTitles, b, BeforeContent, c, SectionClose);
  }

  function Tag(w: Widget): string {
    match w
    case AiWidget(_) => Ai.Tag
    case TypeWidget(_) => Type.Tag
    case SourcesWidget(_) => Src.Tag
  }

  function Build(w: Widget): string {
    match w
    case AiWidget(a) => Ai.Build(a)
    case TypeWidget(t) => Type.Build(t)
    case SourcesWidget(s) => GroundingBuild(Src.Title, Src.BuildContent(s))
  }

  /** `style`; for `Sources` the blanket impl's `content_style`. */
  function Style(w: Widget): string {
    match w
    case AiWidget(_) => Ai.Style
    case TypeWidget(_) => Type.Style
    case SourcesWidget(_) => Src.ContentStyle
  }

  /**
   * The sources widget renders nothing iff the list is empty; otherwise its
   * section holds both titles and every source's item.
   */
  lemma SourcesBuild(s: Src.Sources)
    ensures Build(SourcesWidget(s)) == "" <==> |s.items| == 0
    ensures |s.items| > 0 ==> Contains(Build(SourcesWidget(s)), Src.Title.0) && Contains(Build(SourcesWidget(s)), Src.Title.1)
    ensures forall k :: 0 <= k < |s.items| ==> Contains(Build(SourcesWidget(s)), Src.ToHtml(s.items[k]))
  {
    if |s.items| > 0 {
      var items := Src.ItemsHtml(s.items);
      var content := "<ul>" + items + "</ul>";
      var r := Build(SourcesWidget(s));
      assert r == Section(Src.Title.0, Src.Title.1, content);
      SectionHolds(Src.Title.0, Src.Title.1, content);
      ContainsPiece("<ul>", items, "</ul>");
      forall k | 0 <= k < |s.items| ensures Contains(r, Src.ToHtml(s.items[k])) {
        Src.ItemsHtmlContains(s.items, k);
        ContainsTransitive(content, items, Src.ToHtml(s.items[k]));
        ContainsTransitive(r, content, Src.ToHtml(s.items[k]));
      }
    }
  }

  /** `render_widget`: the widget's tag paired with its markup. */
  function RenderWidget(w: Widget): (string, string) {
    (Tag(w), Build(w))
  }

  /** `Widgets`: one widget of each kind; each defaults on its own. */
  datatype WidgetSet = WidgetSet(ai: Ai.AiUsage, articleType: Type.ArticleType, sources: Src.Sources)

  const DefaultWidgets := WidgetSet(Ai.DefaultUsage, Type.DefaultType, Src.DefaultSources)

  /** The styles of the three widgets, in the order ai, type, sources. */
  function Styles(ws: WidgetSet): string {
    Style(AiWidget(ws.ai)) + Style(TypeWidget(ws.articleType)) + Style(SourcesWidget(ws.sources))
  }

  /** `concatenate_styles`: a buffer each style is pushed onto in turn. */
  method ConcatenateStyles(ws: WidgetSet) returns (style: string)
    ensures style == Styles(ws)
  {
    var a, t, s := Style(AiWidget(ws.ai)), Style(TypeWidget(ws.articleType)), Style(SourcesWidget(ws.sources));
    style := "";
    style := style + a;
    style := style + t;
    style := style + s;
    AppendToEmpty(a, t, s);
  }

  lemma AppendToEmpty(a: string, t: string, s: string)
    ensures "" + a + t + s == a + t + s
  {
  }

  /**
   * `render_to_placeholder_content`: exactly the keys `ai`, `type`,
   * `sources` and `widget_styles`, each widget's markup under its tag, and
   * the concatenated styles.
   */
  function RenderToPlaceholderContent(ws: WidgetSet): (m: map<string, string>)
    ensures m.Keys == {"ai", "type", "sources", "widget_styles"}
    ensures m["ai"] == Build(AiWidget(ws.ai))
    ensures m["type"] == Build(TypeWidget(ws.articleType))
    ensures m["sources"] == Build(SourcesWidget(ws.sources))
    ensures m["widget_styles"] == Styles(ws)
  {
    var a := RenderWidget(AiWidget(ws.ai));
    var t := RenderWidget(TypeWidget(ws.articleType));
    var s := RenderWidget(SourcesWidget(ws.sources));
    PlaceholderMap(a.1, t.1, s.1, Styles(ws))
  }

  /** The four placeholder values under their keys. */
  function PlaceholderMap(ai: string, ty: string, sources: string, styles: string): (m: map<string, string>)
    ensures m.Keys == {"ai", "type", "sources", "widget_styles"}
    ensures m["ai"] == ai && m["type"] == ty && m["sources"] == sources && m["widget_styles"] == styles
  {
    map["ai" := ai, "type" := ty, "sources" := sources, "widget_styles" := styles]
  }

  /** With the defaults there is no AI badge and no sources section, only the type heading. */
  lemma DefaultsRender()
    ensures RenderToPlaceholderContent(DefaultWidgets)["ai"] == ""
    ensures RenderToPlaceholderContent(DefaultWidgets)["sources"] == ""
    ensures RenderToPlaceholderContent(DefaultWidgets)["type"] == Type.Build(Type.Activity)
  {
  }
}
