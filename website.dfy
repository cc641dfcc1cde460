/**
 * The website crate: one HTML page per article, made by filling the
 * article template, and the output tree that holds all pages under
 * `articles`.
 */
module Website {
  import opened Wrappers
  import opened Paths
  import T = Template
  import A = ArticleParse
  import C = Construct

  /** `WebsiteGenerationError`, reduced to the variant page generation produces. */
  datatype WebsiteGenerationError = InvalidPlaceholder(names: seq<string>)

  /** `ArticlePage`: the article, its finished HTML and its path below the output's `articles` directory. */
  datatype ArticlePage = ArticlePage(article: A.Article, html: string, path: Path)

  /** `From<&ArticlePage> for ConstructFile`: the page's path and HTML, unchanged. */
  function PageFile(page: ArticlePage): C.ConstructFile {
    C.ConstructFile(page.path, page.html)
  }

  /** The names the article template may use. */
  const KnownNames: set<string> := {"title", "date", "slug", "content"}

  /**
   * The table of placeholder contents. The article's date is a parameter:
   * the article metadata in this model has no date field.
   */
  function PlaceholderContents(article: A.Article, date: string): (m: map<string, string>)
    ensures m.Keys == KnownNames
    ensures m["title"] == article.metadata.title && m["date"] == date
    ensures m["slug"] == article.slug && m["content"] == article.content
  {
    map["title" := article.metadata.title, "date" := date, "slug" := article.slug, "content" := article.content]
  }

  /** `placeholder_contents.get(name).cloned()`. */
  function Lookup(m: map<string, string>): string -> Option<string> {
    n => if n in m then Some(m[n]) else None
  }

  /** `Placeholder::from_strs("${", "}", None)`, which the source unwraps. */
  function ShellPlaceholder(): (p: T.Placeholder)
    ensures p.regex.syntax == T.ShellStyle
  {
    T.FromStrs("${", '}', T.LazyUntilEnd).value
  }

  /** `Path::new(name)` for a name without separators: empty for "", one component otherwise. */
  function NamePath(name: string): (p: Path)
    ensures !p.absolute && p.components == if name == "" then [] else [name]
  {
    if name == "" then EmptyPath else Relative([name])
  }

  /**
   * `generate_article_html`: the article template with `title`, `date`,
   * `slug` and `content` filled in, at `group/slug.html`; any other name
   * in the template fails the page with every such name, in order. The
   * fill is the one `partially_fill_placeholders` computes, stated by
   * the functions its ensures are written in.
   */
  function GenerateArticleHtml(template: string, article: A.Article, date: string): (r: Result<ArticlePage, WebsiteGenerationError>)
    ensures var used := T.ParseUsed(ShellPlaceholder(), template);
      r.Ok? <==> forall k :: 0 <= k < |used| ==> used[k] in KnownNames
    ensures r.Err? ==> r.error.names == T.Failing(T.ParseUsed(ShellPlaceholder(), template), Lookup(PlaceholderContents(article, date)))
    ensures r.Err? ==> forall n :: n in r.error.names <==> n in T.ParseUsed(ShellPlaceholder(), template) && n !in KnownNames
    ensures r.Ok? ==> r.value.article == article
    ensures r.Ok? ==> r.value.html == T.Fill(ShellPlaceholder(), template, T.OrEmpty(Lookup(PlaceholderContents(article, date))))
    ensures r.Ok? ==> !r.value.path.absolute
    ensures r.Ok? ==> r.value.path.components == (if article.group == "" then [] else [article.group]) + [article.slug + ".html"]
  {
    var p := ShellPlaceholder();
    var filler := Lookup(PlaceholderContents(article, date));
    var used := T.ParseUsed(p, template);
    var failing := T.Failing(used, filler);
    T.FailingEmpty(used, filler);
    T.FailingMembers(used, filler);
    if failing == [] then
      Ok(ArticlePage(article, T.Fill(p, template, T.OrEmpty(filler)), Join(NamePath(article.group), Relative([article.slug + ".html"]))))
    else
      Err(InvalidPlaceholder(failing))
  }

  /** A template without placeholders is the page as it stands. */
  lemma PlainTemplateIsPage(template: string, article: A.Article, date: string)
    requires T.ParseUsed(ShellPlaceholder(), template) == []
    ensures GenerateArticleHtml(template, article, date).Ok?
    ensures GenerateArticleHtml(template, article, date).value.html == template
  {
    var pieces := T.Scan(T.ShellStyle, template);
    T.FillWithoutHoles(pieces, T.OrEmpty(Lookup(PlaceholderContents(article, date))));
    T.ScanRoundTrip(T.ShellStyle, template);
  }

  /** The page does not depend on the date unless the template uses `date`. */
  lemma DateUnusedIrrelevant(template: string, article: A.Article, d1: string, d2: string)
    requires "date" !in T.ParseUsed(ShellPlaceholder(), template)
    ensures GenerateArticleHtml(template, article, d1) == GenerateArticleHtml(template, article, d2)
  {
    var p := ShellPlaceholder();
    var pieces := T.Scan(T.ShellStyle, template);
    var names := T.Names(pieces);
    assert names == T.ParseUsed(p, template);
    var m1 := PlaceholderContents(article, d1);
    var m2 := PlaceholderContents(article, d2);
    var f1 := Lookup(m1);
    var f2 := Lookup(m2);
    forall k | 0 <= k < |names| ensures f1(names[k]).Some? == f2(names[k]).Some? {
      assert names[k] in m1 <==> names[k] in m2;
    }
    FailingAgree(names, f1, f2);
    forall n | n in names ensures T.OrEmpty(f1)(n) == T.OrEmpty(f2)(n) {
      assert n != "date";
      assert n in m1 ==> m1[n] == m2[n];
    }
    FillAgree(pieces, T.OrEmpty(f1), T.OrEmpty(f2));
    assert T.Fill(p, template, T.OrEmpty(f1)) == T.Fill(p, template, T.OrEmpty(f2));
  }

  /** Two fillers that agree on every used name fail on the same names. */
  lemma {:induction false} FailingAgree(names: seq<string>, f: string -> Option<string>, g: string -> Option<string>)
    requires forall k :: 0 <= k < |names| ==> f(names[k]).Some? == g(names[k]).Some?
    ensures T.Failing(names, f) == T.Failing(names, g)
  {
    if |names| > 0 {
      FailingAgree(names[..|names| - 1], f, g);
    }
  }

  /** Two fillers that agree on every hole's name fill alike. */
  lemma {:induction false} FillAgree(ps: seq<T.Piece>, f: string -> string, g: string -> string)
    requires forall n :: n in T.Names(ps) ==> f(n) == g(n)
    ensures T.FillPieces(ps, f) == T.FillPieces(ps, g)
  {
    if |ps| > 0 {
      assert T.Names(ps) == T.Names([ps[0]]) + T.Names(ps[1..]);
      FillAgree(ps[1..], f, g);
    }
  }

  /** The pages' files, in page order. */
  function PageFiles(pages: seq<ArticlePage>): (r: seq<C.ConstructFile>)
    ensures |r| == |pages| && forall i :: 0 <= i < |pages| ==> r[i] == PageFile(pages[i])
  {
    if |pages| == 0 then [] else PageFiles(pages[..|pages| - 1]) + [PageFile(pages[|pages| - 1])]
  }

  const ArticlesDir := Relative(["articles"])

  /**
   * `get_webpage_construction`: an empty root with one child,
   * `articles`, holding every page's file and nothing else.
   */
  function GetWebpageConstruction(pages: seq<ArticlePage>): (c: C.Construction)
    ensures c.dir == EmptyPath && c.content == [] && |c.subDir| == 1
    ensures c.subDir[0].dir == ArticlesDir && c.subDir[0].subDir == []
    ensures |c.subDir[0].content| == |pages|
    ensures forall i :: 0 <= i < |pages| ==> c.subDir[0].content[i].path == pages[i].path && c.subDir[0].content[i].content == pages[i].html
  {
    C.Construction(EmptyPath, [], [C.Construction(ArticlesDir, PageFiles(pages), [])])
  }

  /**
   * Planned against any root, the output writes page `i` at
   * `root/articles/` followed by the page's path, with the page's HTML,
   * in page order, and creates the root and `root/articles` first.
   */
  lemma PlannedPages(pages: seq<ArticlePage>, root: Path)
    ensures var plan := C.PlanOf(GetWebpageConstruction(pages), root);
      |plan.files| == |pages| &&
      (forall i :: 0 <= i < |pages| ==> plan.files[i] == (Join(Join(root, ArticlesDir), pages[i].path), pages[i].html)) &&
      |plan.dirs| >= 2 && plan.dirs[0] == root && plan.dirs[1] == Join(root, ArticlesDir)
  {
    var c := GetWebpageConstruction(pages);
    var a := c.subDir[0];
    var inner := Join(root, ArticlesDir);
    JoinEmpty(root);
    assert C.PlanOf(a, root) == C.MergePlans(C.OwnPlan(a, inner), C.EmptyPlan);
    assert C.MergePlans(C.OwnPlan(a, inner), C.EmptyPlan) == C.OwnPlan(a, inner);
    C.PrefixEmpty(C.PlanOf(a, root));
    assert C.ChildPlans(c, root, 1) == C.MergePlans(C.EmptyPlan, C.OwnPlan(a, inner));
    assert C.MergePlans(C.EmptyPlan, C.OwnPlan(a, inner)) == C.OwnPlan(a, inner);
    assert C.OwnPlan(c, root) == C.Plan([root], []) by {
      assert C.UsedDirs(root, []) == [];
    }
  }

  /** A generated page of a non-empty group lands at `root/articles/group/slug.html`. */
  lemma GeneratedPagePath(template: string, article: A.Article, date: string, root: Path)
    requires GenerateArticleHtml(template, article, date).Ok?
    requires article.group != ""
    ensures Join(Join(root, ArticlesDir), GenerateArticleHtml(template, article, date).value.path) ==
      Path(root.absolute, root.components + ["articles", article.group, article.slug + ".html"])
  {
    assert root.components + ["articles"] + [article.group, article.slug + ".html"] ==
      root.components + ["articles", article.group, article.slug + ".html"];
  }
}
