/**
 * Turning an article file into an `Article`: the group string and slug
 * come from the file's place under the content root, the metadata from
 * its TOML front matter, and the content from the rendered HTML.
 */
module ArticleParse {
  import opened Wrappers
  import opened Strings
  import opened Paths
  import St = Structure
  import W = Widgets

  /** `ParseError`. */
  datatype ParseError = InvalidStructure | InvalidPath | NoFrontmatter | InvalidToml(message: string)

  /** `ArticleMetadata`: the title and the widgets, which default when absent. */
  datatype ArticleMetadata = ArticleMetadata(title: string, widgets: W.WidgetSet)

  /** `Article`. */
  datatype Article = Article(group: string, slug: string, metadata: ArticleMetadata, content: string)

  /** What the Markdown parser hands back: the front matter it captured, if any, and the HTML. */
  datatype MarkdownParseResult = MarkdownParseResult(frontmatter: Option<string>, html: string)

  /** `ParsedContent`. */
  datatype ParsedContent = ParsedContent(frontmatter: string, html: string)

  predicate EndsWithMd(name: string) { |name| >= 3 && name[|name| - 3..] == ".md" }

  /** `strip_suffix(".md").unwrap_or(name)`: one trailing `.md` is removed, if there is one. */
  function StripMd(name: string): (r: string)
    ensures EndsWithMd(name) ==> r + ".md" == name
    ensures !EndsWithMd(name) ==> r == name
  {
    if EndsWithMd(name) then name[..|name| - 3] else name
  }

  /** Only one `.md` is removed: a doubled suffix keeps the inner one. */
  lemma StripMdOnce(stem: string)
    ensures StripMd(stem + ".md.md") == stem + ".md"
  {
    assert EndsWithMd(stem + ".md.md");
    assert (stem + ".md.md")[..|stem| + 3] == stem + ".md";
  }

  /**
   * `path_into_group_and_slug`: the file must sit directly in its group
   * directory (one component after year and month); the group string is
   * the padded year and month, the slug the file name without `.md`.
   */
  function PathIntoGroupAndSlug(file: St.GroupNode): (r: Result<(string, string), ParseError>)
    ensures r.Err? <==> |file.suffix| != 1
    ensures r.Err? ==> r.error == InvalidStructure
    ensures r.Ok? ==> r.value.0 == St.GroupString(file.group)
    ensures r.Ok? && EndsWithMd(file.suffix[0]) ==> r.value.1 + ".md" == file.suffix[0]
    ensures r.Ok? && !EndsWithMd(file.suffix[0]) ==> r.value.1 == file.suffix[0]
  {
    if |file.suffix| != 1 then Err(InvalidStructure)
    else Ok((St.GroupString(file.group), StripMd(file.suffix[0])))
  }

  /**
   * Every file the content directory classifies as an article has an
   * identity: its name ends in `.md` with a non-empty stem, and the slug is
   * that stem.
   */
  lemma ArticleFilesHaveIdentity(path: Path, root: Path)
    requires St.ArticleFileFromFile(path, root).Some?
    ensures var a := St.ArticleFileFromFile(path, root).value;
      PathIntoGroupAndSlug(a).Ok? &&
      PathIntoGroupAndSlug(a).value.0 == St.GroupString(a.group) &&
      PathIntoGroupAndSlug(a).value.1 + ".md" == a.suffix[0] &&
      |PathIntoGroupAndSlug(a).value.1| > 0
  {
    var a := St.ArticleFileFromFile(path, root).value;
    St.ArticleFileMeaning(path, root);
    var rel := a.relativePath;
    var name := rel.components[2];
    assert FileName(rel) == Some(name);
    var k := LastIndexOf(name, '.').value;
    assert 0 < k && name[k + 1..] == "md";
    assert name[|name| - 3..] == name[k..] == ".md";
  }

  /** Two files with the same group string are in the same group, while year and month have at most four and two digits. */
  lemma GroupStringsIdentify(a: St.GroupNode, b: St.GroupNode)
    requires PathIntoGroupAndSlug(a).Ok? && PathIntoGroupAndSlug(b).Ok?
    requires a.group.year < 10000 && a.group.month < 100 && b.group.year < 10000 && b.group.month < 100
    requires PathIntoGroupAndSlug(a).value.0 == PathIntoGroupAndSlug(b).value.0
    ensures a.group == b.group
  {
    St.GroupStringInjective(a.group, b.group);
  }

  /**
   * `parse_markdown`: the front matter is required; the HTML is passed
   * through. The Markdown parser itself is the parameter `parser`.
   */
  function ParseMarkdown(parser: string -> MarkdownParseResult, content: string): (r: Result<ParsedContent, ParseError>)
    ensures r.Err? <==> parser(content).frontmatter.None?
    ensures r.Err? ==> r.error == NoFrontmatter
    ensures r.Ok? ==> r.value == ParsedContent(parser(content).frontmatter.value, parser(content).html)
  {
    match parser(content).frontmatter
    case None => Err(NoFrontmatter)
    case Some(f) => Ok(ParsedContent(f, parser(content).html))
  }

  /** `parse_toml_to_metadata`: a deserialisation failure becomes `InvalidToml` with its message. */
  function ParseTomlToMetadata(toml: string -> Result<ArticleMetadata, string>, text: string): (r: Result<ArticleMetadata, ParseError>)
    ensures r.Ok? <==> toml(text).Ok?
    ensures r.Ok? ==> r.value == toml(text).value
    ensures r.Err? ==> r == Err(InvalidToml(toml(text).error))
  {
    match toml(text)
    case Ok(m) => Ok(m)
    case Err(e) => Err(InvalidToml(e))
  }

  /**
   * `make_article_from_markdown`: the location is checked first, then the
   * front matter, then its TOML; the first failure is the answer.
   */
  function MakeArticleFromMarkdown(parser: string -> MarkdownParseResult, toml: string -> Result<ArticleMetadata, string>,
                                   file: St.GroupNode, content: string): (r: Result<Article, ParseError>)
    ensures |file.suffix| != 1 ==> r == Err(InvalidStructure)
    ensures |file.suffix| == 1 && parser(content).frontmatter.None? ==> r == Err(NoFrontmatter)
    ensures |file.suffix| == 1 && parser(content).frontmatter.Some? && toml(parser(content).frontmatter.value).Err? ==>
      r == Err(InvalidToml(toml(parser(content).frontmatter.value).error))
    ensures r.Ok? <==> |file.suffix| == 1 && parser(content).frontmatter.Some? && toml(parser(content).frontmatter.value).Ok?
    ensures r.Ok? ==>
      r.value.group == PathIntoGroupAndSlug(file).value.0 &&
      r.value.slug == PathIntoGroupAndSlug(file).value.1 &&
      r.value.metadata == toml(parser(content).frontmatter.value).value &&
      r.value.content == parser(content).html
  {
    match PathIntoGroupAndSlug(file)
    case Err(e) => Err(e)
    case Ok(id) =>
      match ParseMarkdown(parser, content)
      case Err(e) => Err(e)
      case Ok(parsed) =>
        match ParseTomlToMetadata(toml, parsed.frontmatter)
        case Err(e) => Err(e)
        case Ok(metadata) => Ok(Article(id.0, id.1, metadata, parsed.html))
  }

  /** For a file the content directory lists as an article, only the front matter can make the parse fail. */
  lemma ClassifiedArticleErrors(parser: string -> MarkdownParseResult, toml: string -> Result<ArticleMetadata, string>,
                                path: Path, root: Path, content: string)
    requires St.ArticleFileFromFile(path, root).Some?
    ensures var r := MakeArticleFromMarkdown(parser, toml, St.ArticleFileFromFile(path, root).value, content);
      r.Err? ==> r.error.NoFrontmatter? || r.error.InvalidToml?
    ensures var r := MakeArticleFromMarkdown(parser, toml, St.ArticleFileFromFile(path, root).value, content);
      r.Ok? ==> r.value.slug + ".md" == St.ArticleFileFromFile(path, root).value.suffix[0]
  {
    ArticleFilesHaveIdentity(path, root);
  }
}
