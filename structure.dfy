/**
 * The content directory: article groups (`year/month` directories), the
 * classification of files below them into articles and assets, the group
 * directory names, and the scan that lists the groups and their articles.
 * The file-system walk is given as the list of entries it yields, and the
 * listing of a directory as a map from existing directories to their
 * entries.
 */
module Structure {
  import opened Wrappers
  import opened Strings
  import opened Paths
  import S = Sorting

  // ---------------------------------------------------------------------
  // Article groups
  // ---------------------------------------------------------------------

  /** `ArticleGroup { year, month }`, two `usize` values. */
  datatype ArticleGroup = ArticleGroup(year: nat, month: nat)

  predicate ValidGroup(g: ArticleGroup) { g.year <= USIZE_MAX && g.month <= USIZE_MAX }

  /** The derived `Ord`: by year, then by month. */
  predicate GroupLess(a: ArticleGroup, b: ArticleGroup) {
    a.year < b.year || (a.year == b.year && a.month < b.month)
  }

  lemma GroupLessIsStrictTotalOrder()
    ensures S.StrictTotalOrder(GroupLess)
  {
  }

  /** What `Path::iter` yields: `/` for the root, then the ordinary names. */
  function PathNames(p: Path): seq<string> {
    (if p.absolute then ["/"] else []) + p.components
  }

  /** `filter_map(parse::<usize>)`: the values of the names that parse, in order. */
  function ParsedNumbers(names: seq<string>): (r: seq<nat>)
    ensures |r| <= |names|
  {
    if |names| == 0 then []
    else (match ParseUsize(names[0]) case Some(n) => [n] case None => []) + ParsedNumbers(names[1..])
  }

  /**
   * `ArticleGroup::from_path`: the first two names that parse among the
   * first two names; the suffix is every name after the first two.
   */
  function FromPath(p: Path): Option<(ArticleGroup, seq<string>)> {
    var names := PathNames(p);
    var numbers := ParsedNumbers(names[..if |names| < 2 then |names| else 2]);
    if |numbers| < 2 then None
    else Some((ArticleGroup(numbers[0], numbers[1]), names[2..]))
  }

  /**
   * A path names a group iff its first two names both parse as `usize`
   * (so it is relative, since `/` does not parse); the suffix is the rest,
   * in order.
   */
  lemma FromPathMeaning(p: Path)
    ensures FromPath(p).Some? <==>
      !p.absolute && |p.components| >= 2 && ParseUsize(p.components[0]).Some? && ParseUsize(p.components[1]).Some?
    ensures FromPath(p).Some? ==>
      FromPath(p).value == (ArticleGroup(ParseUsize(p.components[0]).value, ParseUsize(p.components[1]).value), p.components[2..])
    ensures FromPath(p).Some? ==> ValidGroup(FromPath(p).value.0)
  {
    assert ParseUsize("/") == None;
    var names := PathNames(p);
    if |names| >= 2 {
      var two := names[..2];
      assert two[1..][1..] == [];
      assert two[1..] == [names[1]];
      assert ParsedNumbers(two[1..]) == (match ParseUsize(names[1]) case Some(n) => [n] case None => []);
      assert ParsedNumbers(two) == (match ParseUsize(names[0]) case Some(n) => [n] case None => []) + ParsedNumbers(two[1..]);
      if p.absolute {
        assert names[0] == "/";
      } else {
        assert names == p.components;
      }
    } else if |names| == 1 {
      assert names[..1][1..] == [];
    }
  }

  /** `group_dir_path`: the year and the month in plain decimal, as two components. */
  function GroupDirPath(g: ArticleGroup): (p: Path)
    ensures p == Relative([NatToString(g.year), NatToString(g.month)])
  {
    Paths.Join(Paths.Join(EmptyPath, Relative([NatToString(g.year)])), Relative([NatToString(g.month)]))
  }

  /** Anything below a group's directory path is read back as that group, with the rest as suffix. */
  lemma GroupDirPathRoundTrip(g: ArticleGroup, rest: seq<string>)
    requires ValidGroup(g)
    ensures FromPath(Paths.Join(GroupDirPath(g), Relative(rest))) == Some((g, rest))
  {
    var p := Paths.Join(GroupDirPath(g), Relative(rest));
    ParseUsizeOfNatToString(g.year);
    ParseUsizeOfNatToString(g.month);
    FromPathMeaning(p);
    assert p.components[2..] == rest;
  }

  /** `format!("{:0>4}{:0>2}", year, month)`, used for output directories and article groups. */
  function GroupString(g: ArticleGroup): string {
    PadZero(NatToString(g.year), 4) + PadZero(NatToString(g.month), 2)
  }

  /** `group_dir_flat_path`: the group string as a single component. */
  function GroupDirFlatPath(g: ArticleGroup): (p: Path)
    ensures p == Relative([GroupString(g)])
  {
    Paths.Join(EmptyPath, Relative([GroupString(g)]))
  }

  function Pow10(k: nat): nat { if k == 0 then 1 else 10 * Pow10(k - 1) }

  lemma {:induction false} NatToStringShort(n: nat, k: nat)
    requires 1 <= k && n < Pow10(k)
    ensures |NatToString(n)| <= k
  {
    if n >= 10 {
      assert k >= 2;
      NatToStringShort(n / 10, k - 1);
    }
  }

  /**
   * For a year below 10000 and a month below 100 the group string is six
   * digits, the first four giving the year and the last two the month.
   */
  lemma GroupStringDecode(g: ArticleGroup)
    requires g.year < 10000 && g.month < 100
    ensures var s := GroupString(g);
      |s| == 6 && AllDigits(s[..4]) && AllDigits(s[4..]) && DigitsValue(s[..4]) == g.year && DigitsValue(s[4..]) == g.month
  {
    NatToStringShort(g.year, 4);
    NatToStringShort(g.month, 2);
    var y, m := PadZero(NatToString(g.year), 4), PadZero(NatToString(g.month), 2);
    PadZeroDigits(NatToString(g.year), 4);
    PadZeroDigits(NatToString(g.month), 2);
    NatToStringValue(g.year);
    NatToStringValue(g.month);
    var s := GroupString(g);
    assert s[..4] == y && s[4..] == m;
  }

  /** Within those bounds, distinct groups have distinct group strings. */
  lemma GroupStringInjective(a: ArticleGroup, b: ArticleGroup)
    requires a.year < 10000 && a.month < 100 && b.year < 10000 && b.month < 100
    requires GroupString(a) == GroupString(b)
    ensures a == b
  {
    GroupStringDecode(a);
    GroupStringDecode(b);
  }

  lemma NatToString2024()
    ensures NatToString(20) == "20" && NatToString(202) == "202" && NatToString(2024) == "2024"
  {
    assert NatToString(2) == "2";
    assert NatToString(20) == NatToString(2) + [DigitChar(0)];
    assert NatToString(202) == NatToString(20) + [DigitChar(2)];
    assert NatToString(2024) == NatToString(202) + [DigitChar(4)];
  }

  /** Outside them the padding does not separate the fields: these two groups share one output directory. */
  lemma GroupStringCollision()
    ensures ArticleGroup(2024, 123) != ArticleGroup(20241, 23)
    ensures GroupString(ArticleGroup(2024, 123)) == GroupString(ArticleGroup(20241, 23))
  {
    NatToString2024();
    assert NatToString(12) == NatToString(1) + [DigitChar(2)];
    assert NatToString(123) == NatToString(12) + [DigitChar(3)];
    assert NatToString(20241) == NatToString(2024) + [DigitChar(1)];
    assert NatToString(23) == NatToString(2) + [DigitChar(3)];
    PadZeroWide("2024", 4);
    PadZeroWide("123", 2);
    PadZeroWide("20241", 4);
    PadZeroWide("23", 2);
  }

  /** `"2024"` and `"03"` parse as 2024 and 3. */
  lemma ParseExamples()
    ensures ParseUsize("2024") == Some(2024) && ParseUsize("03") == Some(3)
  {
    NatToString2024();
    ParseUsizeOfNatToString(2024);
    var s := "03";
    assert s[..1] == "0" && "0"[..0] == "";
    assert AllDigits(s) && DigitsValue(s) == 3;
  }

  // ---------------------------------------------------------------------
  // File-system entries
  // ---------------------------------------------------------------------

  /** `FSNode`: a file or a directory, with its path. */
  datatype Node = FileNode(path: Path) | DirNode(path: Path)

  /** `std::io::Error`: a missing directory, or any other failure. */
  datatype IoError = NotFound(missing: Path) | IoFailure(message: string)

  /** `collect::<Result<Vec<_>, _>>()`: all the values, or the first error. */
  function CollectAll<T>(rs: seq<Result<T, IoError>>): (r: Result<seq<T>, IoError>)
    ensures r.Ok? <==> forall i :: 0 <= i < |rs| ==> rs[i].Ok?
    ensures r.Ok? ==> |r.value| == |rs| && forall i :: 0 <= i < |rs| ==> r.value[i] == rs[i].value
    ensures r.Err? ==> exists i :: 0 <= i < |rs| && rs[i] == Err(r.error) && forall j :: 0 <= j < i ==> rs[j].Ok?
  {
    if |rs| == 0 then Ok([])
    else
      match rs[0]
      case Err(e) => Err(e)
      case Ok(v) =>
        match CollectAll(rs[1..])
        case Err(e) =>
          ghost var i :| 0 <= i < |rs[1..]| && rs[1..][i] == Err(e) && forall j :: 0 <= j < i ==> rs[1..][j].Ok?;
          assert rs[i + 1] == Err(e);
          Err(e)
        case Ok(vs) => Ok([v] + vs)
  }

  /** Every entry of the walk lies below the root (the walk's own guarantee, which the `unwrap` relies on). */
  predicate UnderRoot(root: Path, nodes: seq<Node>) {
    forall i :: 0 <= i < |nodes| ==> StripPrefix(nodes[i].path, root).Some?
  }

  lemma WalkUnderRoot(root: Path, walk: seq<Result<Node, IoError>>)
    requires forall i :: 0 <= i < |walk| && walk[i].Ok? ==> StripPrefix(walk[i].value.path, root).Some?
    ensures CollectAll(walk).Ok? ==> UnderRoot(root, CollectAll(walk).value)
  {
    if CollectAll(walk).Ok? {
      var nodes := CollectAll(walk).value;
      forall i | 0 <= i < |nodes| ensures StripPrefix(nodes[i].path, root).Some? {
        assert nodes[i] == walk[i].value;
      }
    }
  }

  /** A directory whose path below the root is exactly two names that parse as the group's year and month. */
  predicate IsGroupDir(root: Path, n: Node, g: ArticleGroup) {
    && n.DirNode?
    && StripPrefix(n.path, root).Some?
    && var rel := StripPrefix(n.path, root).value;
    && !rel.absolute && |rel.components| == 2
    && ParseUsize(rel.components[0]) == Some(g.year) && ParseUsize(rel.components[1]) == Some(g.month)
  }

  /** The filter chain of `scan`: directories, read as groups, with an empty suffix. */
  function GroupsOf(root: Path, nodes: seq<Node>): seq<ArticleGroup>
    requires UnderRoot(root, nodes)
  {
    if |nodes| == 0 then []
    else
      var rest := GroupsOf(root, nodes[1..]);
      match nodes[0]
      case FileNode(_) => rest
      case DirNode(p) =>
        match FromPath(StripPrefix(p, root).value)
        case None => rest
        case Some(found) => if |found.1| == 0 then [found.0] + rest else rest
  }

  lemma {:induction false} GroupsOfMeaning(root: Path, nodes: seq<Node>)
    requires UnderRoot(root, nodes)
    ensures forall g :: g in GroupsOf(root, nodes) <==> exists i :: 0 <= i < |nodes| && IsGroupDir(root, nodes[i], g)
  {
    if |nodes| > 0 {
      GroupsOfMeaning(root, nodes[1..]);
      var n := nodes[0];
      if n.DirNode? {
        FromPathMeaning(StripPrefix(n.path, root).value);
      }
      forall g ensures g in GroupsOf(root, nodes) <==> exists i :: 0 <= i < |nodes| && IsGroupDir(root, nodes[i], g) {
        if g in GroupsOf(root, nodes) {
          if g in GroupsOf(root, nodes[1..]) {
            var i :| 0 <= i < |nodes[1..]| && IsGroupDir(root, nodes[1..][i], g);
            assert IsGroupDir(root, nodes[i + 1], g);
          } else {
            assert IsGroupDir(root, nodes[0], g);
          }
        }
        if exists i :: 0 <= i < |nodes| && IsGroupDir(root, nodes[i], g) {
          var i :| 0 <= i < |nodes| && IsGroupDir(root, nodes[i], g);
          if i > 0 {
            assert IsGroupDir(root, nodes[1..][i - 1], g);
          }
        }
      }
    }
  }

  /**
   * `ArticleGroup::scan`: the first error of the walk, or one group for
   * each directory exactly two numeric names below the root (nothing
   * deeper, nothing shallower, no file).
   */
  function Scan(root: Path, walk: seq<Result<Node, IoError>>): (r: Result<seq<ArticleGroup>, IoError>)
    requires forall i :: 0 <= i < |walk| && walk[i].Ok? ==> StripPrefix(walk[i].value.path, root).Some?
    ensures r.Ok? <==> forall i :: 0 <= i < |walk| ==> walk[i].Ok?
    ensures r.Ok? ==> forall g :: g in r.value <==>
      exists i :: 0 <= i < |walk| && walk[i].Ok? && IsGroupDir(root, walk[i].value, g)
  {
    match CollectAll(walk)
    case Err(e) => Err(e)
    case Ok(nodes) =>
      WalkUnderRoot(root, walk);
      GroupsOfMeaning(root, nodes);
      Ok(GroupsOf(root, nodes))
  }

  // ---------------------------------------------------------------------
  // Classification
  // ---------------------------------------------------------------------

  /** `ArticleGroupNode`: a node below a group, with its relative path and suffix. */
  datatype GroupNode = GroupNode(group: ArticleGroup, node: Node, relativePath: Path, suffix: seq<string>)

  /** `ArticleGroupNode::from_node`: the node's path below the root, read as a group path. */
  function FromNode(node: Node, root: Path): Option<GroupNode> {
    match StripPrefix(node.path, root)
    case None => None
    case Some(rel) =>
      match FromPath(rel)
      case None => None
      case Some(found) => Some(GroupNode(found.0, node, rel, found.1))
  }

  /** `ArticleFile::from_file`: exactly one name after the group, and the extension `md`. */
  function ArticleFileFromFile(path: Path, root: Path): Option<GroupNode> {
    match FromNode(FileNode(path), root)
    case None => None
    case Some(n) => if |n.suffix| == 1 && Extension(n.relativePath) == Some("md") then Some(n) else None
  }

  /** The shape of an article's path below the root: `year/month/name` with a `.md` extension. */
  predicate IsArticlePath(rel: Path) {
    && !rel.absolute && |rel.components| == 3
    && ParseUsize(rel.components[0]).Some? && ParseUsize(rel.components[1]).Some?
    && Extension(Relative([rel.components[2]])) == Some("md")
  }

  lemma ArticleFileMeaning(path: Path, root: Path)
    ensures ArticleFileFromFile(path, root).Some? <==>
      StripPrefix(path, root).Some? && IsArticlePath(StripPrefix(path, root).value)
    ensures ArticleFileFromFile(path, root).Some? ==>
      var rel := StripPrefix(path, root).value;
      var a := ArticleFileFromFile(path, root).value;
      a.group == ArticleGroup(ParseUsize(rel.components[0]).value, ParseUsize(rel.components[1]).value) &&
      a.suffix == [rel.components[2]] && a.relativePath == rel && a.node == FileNode(path)
  {
    if StripPrefix(path, root).Some? {
      var rel := StripPrefix(path, root).value;
      FromPathMeaning(rel);
      if |rel.components| == 3 {
        assert rel.components[2..] == [rel.components[2]];
        assert FileName(rel) == FileName(Relative([rel.components[2]]));
      }
    }
  }

  /**
   * `AssetFile::from_file` as written: more than two names after the group,
   * the first `assets`. A file directly inside `assets` has two and is not
   * an asset.
   */
  function AssetFileFromFileAsWritten(path: Path, root: Path): Option<GroupNode> {
    match FromNode(FileNode(path), root)
    case None => None
    case Some(n) => if |n.suffix| > 2 && n.suffix[0] == "assets" then Some(n) else None
  }

  /** `year/month/assets/img.png` is below a group's `assets` directory, but the written test rejects it. */
  lemma AssetFileAsWrittenMissesDirectChild()
    ensures AssetFileFromFileAsWritten(Relative(["2024", "03", "assets", "img.png"]), EmptyPath) == None
    ensures AssetFileFromFile(Relative(["2024", "03", "assets", "img.png"]), EmptyPath).Some?
  {
    var p := Relative(["2024", "03", "assets", "img.png"]);
    assert StripPrefix(p, EmptyPath) == Some(p);
    FromPathMeaning(p);
    ParseExamples();
    assert p.components[2..] == ["assets", "img.png"];
  }

  /** As written, an asset sits at least two names deep inside `assets`. */
  lemma AssetFileAsWrittenMeaning(path: Path, root: Path)
    ensures AssetFileFromFileAsWritten(path, root).Some? <==>
      StripPrefix(path, root).Some? && IsAssetPath(StripPrefix(path, root).value) &&
      |StripPrefix(path, root).value.components| >= 5
  {
    if StripPrefix(path, root).Some? {
      FromPathMeaning(StripPrefix(path, root).value);
    }
  }

  /** `AssetFile::from_file` as evidently intended: anything at any depth inside the group's `assets` directory. */
  function AssetFileFromFile(path: Path, root: Path): Option<GroupNode> {
    match FromNode(FileNode(path), root)
    case None => None
    case Some(n) => if |n.suffix| >= 2 && n.suffix[0] == "assets" then Some(n) else None
  }

  /** The asset's path below the root: `year/month/assets/...` with at least one name inside `assets`. */
  predicate IsAssetPath(rel: Path) {
    && !rel.absolute && |rel.components| >= 4
    && ParseUsize(rel.components[0]).Some? && ParseUsize(rel.components[1]).Some?
    && rel.components[2] == "assets"
  }

  lemma AssetFileMeaning(path: Path, root: Path)
    ensures AssetFileFromFile(path, root).Some? <==>
      StripPrefix(path, root).Some? && IsAssetPath(StripPrefix(path, root).value)
    ensures AssetFileFromFile(path, root).Some? ==>
      var rel := StripPrefix(path, root).value;
      var a := AssetFileFromFile(path, root).value;
      a.group == ArticleGroup(ParseUsize(rel.components[0]).value, ParseUsize(rel.components[1]).value) &&
      a.suffix == rel.components[2..] && a.relativePath == rel
  {
    if StripPrefix(path, root).Some? {
      FromPathMeaning(StripPrefix(path, root).value);
    }
  }

  /** `AssetRootDir::from_dir`: the suffix is exactly `assets`. */
  function AssetRootDirFromDir(path: Path, root: Path): Option<GroupNode> {
    match FromNode(DirNode(path), root)
    case None => None
    case Some(n) => if |n.suffix| == 1 && n.suffix[0] == "assets" then Some(n) else None
  }

  lemma AssetRootDirMeaning(path: Path, root: Path)
    ensures AssetRootDirFromDir(path, root).Some? <==>
      && StripPrefix(path, root).Some?
      && var rel := StripPrefix(path, root).value;
      && !rel.absolute && |rel.components| == 3
      && ParseUsize(rel.components[0]).Some? && ParseUsize(rel.components[1]).Some?
      && rel.components[2] == "assets"
  {
    if StripPrefix(path, root).Some? {
      FromPathMeaning(StripPrefix(path, root).value);
    }
  }

  /** No file is both an article and an asset, and an asset directory root is never an article. */
  lemma ClassesDisjoint(path: Path, root: Path)
    ensures !(ArticleFileFromFile(path, root).Some? && AssetFileFromFile(path, root).Some?)
  {
    ArticleFileMeaning(path, root);
    AssetFileMeaning(path, root);
  }

  // ---------------------------------------------------------------------
  // ContentDirectory::new
  // ---------------------------------------------------------------------

  /** The entries of every existing directory, keyed by its path; a missing key is a directory that does not exist. */
  type Listing = map<Path, seq<Result<Node, IoError>>>

  /** `Directory::new(p)` then `try_iter_content` and the collect: the entries, or the first error. */
  function ListDir(fs: Listing, p: Path): Result<seq<Node>, IoError> {
    if p in fs then CollectAll(fs[p]) else Err(NotFound(p))
  }

  /** Each directory listed in turn; the first failure stops the whole call. */
  function ListAll(fs: Listing, dirs: seq<Path>): (r: Result<seq<Node>, IoError>)
    ensures r.Ok? <==> forall i :: 0 <= i < |dirs| ==> ListDir(fs, dirs[i]).Ok?
  {
    if |dirs| == 0 then Ok([])
    else
      match ListDir(fs, dirs[0])
      case Err(e) => Err(e)
      case Ok(ns) =>
        match ListAll(fs, dirs[1..])
        case Err(e) =>
          assert !forall i :: 0 <= i < |dirs[1..]| ==> ListDir(fs, dirs[1..][i]).Ok?;
          Err(e)
        case Ok(rest) => Ok(ns + rest)
  }

  /** The files of a listing that classify as articles, in order. */
  function ArticlesOf(nodes: seq<Node>, root: Path): (r: seq<GroupNode>)
    ensures forall a :: a in r <==> exists i :: 0 <= i < |nodes| && nodes[i].FileNode? && ArticleFileFromFile(nodes[i].path, root) == Some(a)
  {
    if |nodes| == 0 then []
    else
      var rest := ArticlesOf(nodes[1..], root);
      var head := if nodes[0].FileNode? then ArticleFileFromFile(nodes[0].path, root) else None;
      var r := (match head case Some(a) => [a] case None => []) + rest;
      assert forall a :: a in rest <==> exists i :: 1 <= i < |nodes| && nodes[i].FileNode? && ArticleFileFromFile(nodes[i].path, root) == Some(a) by {
        forall a | a in rest ensures exists i :: 1 <= i < |nodes| && nodes[i].FileNode? && ArticleFileFromFile(nodes[i].path, root) == Some(a) {
          var i :| 0 <= i < |nodes[1..]| && nodes[1..][i].FileNode? && ArticleFileFromFile(nodes[1..][i].path, root) == Some(a);
          assert nodes[i + 1] == nodes[1..][i];
        }
        forall a | exists i :: 1 <= i < |nodes| && nodes[i].FileNode? && ArticleFileFromFile(nodes[i].path, root) == Some(a) ensures a in rest {
          var i :| 1 <= i < |nodes| && nodes[i].FileNode? && ArticleFileFromFile(nodes[i].path, root) == Some(a);
          assert nodes[1..][i - 1] == nodes[i];
        }
      }
      r
  }

  /** `ContentDirectory`: the root, the article files and the groups. */
  datatype ContentDirectory = ContentDirectory(root: Path, markdownFiles: seq<GroupNode>, articleGroup: seq<ArticleGroup>)

  /** The groups `ContentDirectory::new` keeps: the scan sorted and deduplicated. */
  function SortedGroups(groups: seq<ArticleGroup>): (r: seq<ArticleGroup>)
    ensures S.StrictlySorted(r, GroupLess)
    ensures forall g :: g in r <==> g in groups
  {
    GroupLessIsStrictTotalOrder();
    S.SortDedupSorted(groups, GroupLess);
    S.SortDedup(groups, GroupLess)
  }

  /**
   * `ContentDirectory::new` as written: each group's directory is opened at
   * `root/group_dir_path()`, the plain-decimal spelling of the group, which
   * need not be the directory the scan found.
   */
  function NewContentDirectoryAsWritten(root: Path, walk: seq<Result<Node, IoError>>, fs: Listing)
    : Result<ContentDirectory, IoError>
    requires forall i :: 0 <= i < |walk| && walk[i].Ok? ==> StripPrefix(walk[i].value.path, root).Some?
  {
    match Scan(root, walk)
    case Err(e) => Err(e)
    case Ok(found) =>
      var groups := SortedGroups(found);
      var dirs := seq(|groups|, i requires 0 <= i < |groups| => Paths.Join(root, GroupDirPath(groups[i])));
      match ListAll(fs, dirs)
      case Err(e) => Err(e)
      case Ok(nodes) => Ok(ContentDirectory(root, ArticlesOf(nodes, root), groups))
  }

  // A content root holding only `2024/03/foo.md`.
  const ExampleRoot := Relative(["content"])
  const ExampleDir := Relative(["content", "2024", "03"])
  const ExampleFile := Relative(["content", "2024", "03", "foo.md"])
  const ExampleNodes := [DirNode(ExampleDir), FileNode(ExampleFile)]
  const ExampleWalk: seq<Result<Node, IoError>> := [Ok(DirNode(ExampleDir)), Ok(FileNode(ExampleFile))]
  const ExampleListing: Listing := map[ExampleRoot := ExampleWalk, ExampleDir := [Ok(FileNode(ExampleFile))]]

  /** The example's walk lies below its root, and the scan finds the single group (2024, 3). */
  lemma ExampleScan()
    ensures StripPrefix(ExampleDir, ExampleRoot) == Some(Relative(["2024", "03"]))
    ensures StripPrefix(ExampleFile, ExampleRoot) == Some(Relative(["2024", "03", "foo.md"]))
    ensures CollectAll(ExampleWalk) == Ok(ExampleNodes)
    ensures UnderRoot(ExampleRoot, ExampleNodes)
    ensures Scan(ExampleRoot, ExampleWalk) == Ok([ArticleGroup(2024, 3)])
    ensures SortedGroups([ArticleGroup(2024, 3)]) == [ArticleGroup(2024, 3)]
  {
    var root, nodes, g := ExampleRoot, ExampleNodes, ArticleGroup(2024, 3);
    assert StripPrefix(ExampleDir, root) == Some(Relative(["2024", "03"]));
    assert StripPrefix(ExampleFile, root) == Some(Relative(["2024", "03", "foo.md"]));
    ParseExamples();
    FromPathMeaning(Relative(["2024", "03"]));
    FromPathMeaning(Relative(["2024", "03", "foo.md"]));
    var c := CollectAll(ExampleWalk);
    assert c.Ok? && |c.value| == 2 && c.value[0] == nodes[0] && c.value[1] == nodes[1];
    assert c.value == nodes;
    assert GroupsOf(root, nodes[1..]) == [];
    assert GroupsOf(root, nodes) == [g];
    GroupLessIsStrictTotalOrder();
    S.StrictlySortedUnique(SortedGroups([g]), [g], GroupLess);
  }

  /**
   * In the example the written code opens `2024/3`, the plain-decimal
   * spelling of the group, which does not exist, so the whole call fails.
   */
  lemma PaddedMonthFailsAsWritten()
    ensures StripPrefix(ExampleDir, ExampleRoot).Some? && StripPrefix(ExampleFile, ExampleRoot).Some?
    ensures NewContentDirectoryAsWritten(ExampleRoot, ExampleWalk, ExampleListing) == Err(NotFound(Relative(["content", "2024", "3"])))
  {
    ExampleScan();
    var g := ArticleGroup(2024, 3);
    NatToString2024();
    assert NatToString(3) == "3";
    var asWritten := Relative(["content", "2024", "3"]);
    assert Paths.Join(ExampleRoot, GroupDirPath(g)) == asWritten;
    assert asWritten !in ExampleListing;
    var dirs := seq(1, i requires 0 <= i < 1 => Paths.Join(ExampleRoot, GroupDirPath([g][i])));
    assert dirs == [asWritten];
    assert ListAll(ExampleListing, dirs) == Err(NotFound(asWritten));
  }

  /** The corrected construction opens the directory the scan found and finds the article in it. */
  lemma PaddedMonthSucceeds()
    ensures StripPrefix(ExampleDir, ExampleRoot).Some? && StripPrefix(ExampleFile, ExampleRoot).Some?
    ensures NewContentDirectory(ExampleRoot, ExampleWalk, ExampleListing).Ok?
    ensures NewContentDirectory(ExampleRoot, ExampleWalk, ExampleListing).value.articleGroup == [ArticleGroup(2024, 3)]
    ensures |NewContentDirectory(ExampleRoot, ExampleWalk, ExampleListing).value.markdownFiles| == 1
  {
    ExampleScan();
    ExampleGroupDirs();
    assert ListDir(ExampleListing, ExampleDir) == Ok([FileNode(ExampleFile)]);
    assert ListAll(ExampleListing, [ExampleDir]) == Ok([FileNode(ExampleFile)] + []);
    ExampleArticleFile();
  }

  lemma ExampleGroupDirs()
    ensures UnderRoot(ExampleRoot, ExampleNodes)
    ensures DirsOfGroups(ExampleRoot, ExampleNodes, [ArticleGroup(2024, 3)]) == [ExampleDir]
  {
    ExampleScan();
    ParseExamples();
    var root, nodes, g := ExampleRoot, ExampleNodes, ArticleGroup(2024, 3);
    assert IsGroupDir(root, nodes[0], g);
    assert nodes[1..][0] == nodes[1] && nodes[1..][1..] == [];
    assert !IsGroupDir(root, nodes[1..][0], g);
    assert GroupDirsOf(root, nodes[1..][1..], g) == [];
    assert GroupDirsOf(root, nodes[1..], g) == [];
    assert GroupDirsOf(root, nodes, g) == [ExampleDir];
  }

  lemma ExampleArticleFile()
    ensures ArticleFileFromFile(ExampleFile, ExampleRoot).Some?
    ensures ArticlesOf([FileNode(ExampleFile)], ExampleRoot) == [ArticleFileFromFile(ExampleFile, ExampleRoot).value]
  {
    ExampleScan();
    ParseExamples();
    FromPathMeaning(Relative(["2024", "03", "foo.md"]));
    assert Relative(["2024", "03", "foo.md"]).components[2..] == ["foo.md"];
    assert Extension(Relative(["2024", "03", "foo.md"])) == Some("md") by {
      assert LastIndexOf("foo.md", '.') == Some(3);
    }
    assert ArticleFileFromFile(ExampleFile, ExampleRoot).Some?;
    assert ArticlesOf([FileNode(ExampleFile)], ExampleRoot) == [ArticleFileFromFile(ExampleFile, ExampleRoot).value] + ArticlesOf([], ExampleRoot);
  }

  /** The directories the scan found for group `g`, in walk order. */
  function GroupDirsOf(root: Path, nodes: seq<Node>, g: ArticleGroup): (r: seq<Path>)
    requires UnderRoot(root, nodes)
    ensures forall p :: p in r <==> exists i :: 0 <= i < |nodes| && IsGroupDir(root, nodes[i], g) && nodes[i].path == p
  {
    if |nodes| == 0 then []
    else
      var rest := GroupDirsOf(root, nodes[1..], g);
      if IsGroupDir(root, nodes[0], g) then
        [nodes[0].path] + rest
      else rest
  }

  /** Each group's directories, group by group. */
  function DirsOfGroups(root: Path, nodes: seq<Node>, groups: seq<ArticleGroup>): (r: seq<Path>)
    requires UnderRoot(root, nodes)
    ensures forall p :: p in r ==> exists i :: 0 <= i < |nodes| && nodes[i].DirNode? && nodes[i].path == p
  {
    if |groups| == 0 then []
    else GroupDirsOf(root, nodes, groups[0]) + DirsOfGroups(root, nodes, groups[1..])
  }

  /**
   * `ContentDirectory::new` as evidently intended: the groups sorted and
   * deduplicated as before, and each group's articles drawn from the
   * directories the scan found for it.
   */
  function NewContentDirectory(root: Path, walk: seq<Result<Node, IoError>>, fs: Listing)
    : (r: Result<ContentDirectory, IoError>)
    requires forall i :: 0 <= i < |walk| && walk[i].Ok? ==> StripPrefix(walk[i].value.path, root).Some?
    ensures r.Ok? ==> S.StrictlySorted(r.value.articleGroup, GroupLess)
    ensures r.Ok? ==> forall g :: g in r.value.articleGroup <==>
      exists i :: 0 <= i < |walk| && walk[i].Ok? && IsGroupDir(root, walk[i].value, g)
  {
    match Scan(root, walk)
    case Err(e) => Err(e)
    case Ok(found) =>
      var nodes := CollectAll(walk).value;
      WalkUnderRoot(root, walk);
      var groups := SortedGroups(found);
      match ListAll(fs, DirsOfGroups(root, nodes, groups))
      case Err(e) => Err(e)
      case Ok(listed) => Ok(ContentDirectory(root, ArticlesOf(listed, root), groups))
  }

  /**
   * When the walk succeeds and every directory it found can be listed, the
   * corrected construction succeeds.
   */
  lemma NewContentDirectorySucceeds(root: Path, walk: seq<Result<Node, IoError>>, fs: Listing)
    requires forall i :: 0 <= i < |walk| ==> walk[i].Ok? && StripPrefix(walk[i].value.path, root).Some?
    requires forall i :: 0 <= i < |walk| && walk[i].value.DirNode? ==> ListDir(fs, walk[i].value.path).Ok?
    ensures NewContentDirectory(root, walk, fs).Ok?
  {
    var nodes := CollectAll(walk).value;
    WalkUnderRoot(root, walk);
    var groups := SortedGroups(Scan(root, walk).value);
    var dirs := DirsOfGroups(root, nodes, groups);
    forall k | 0 <= k < |dirs| ensures ListDir(fs, dirs[k]).Ok? {
      assert dirs[k] in dirs;
      var i :| 0 <= i < |nodes| && nodes[i].DirNode? && nodes[i].path == dirs[k];
      assert nodes[i] == walk[i].value;
    }
  }

  /** The article files come only from listed entries that classify as articles. */
  lemma NewContentDirectoryArticles(root: Path, walk: seq<Result<Node, IoError>>, fs: Listing, a: GroupNode)
    requires forall i :: 0 <= i < |walk| && walk[i].Ok? ==> StripPrefix(walk[i].value.path, root).Some?
    requires NewContentDirectory(root, walk, fs).Ok?
    requires a in NewContentDirectory(root, walk, fs).value.markdownFiles
    ensures a.node.FileNode? && ArticleFileFromFile(a.node.path, root) == Some(a)
    ensures StripPrefix(a.node.path, root).Some? && IsArticlePath(StripPrefix(a.node.path, root).value)
  {
    var nodes := CollectAll(walk).value;
    WalkUnderRoot(root, walk);
    var listed := ListAll(fs, DirsOfGroups(root, nodes, SortedGroups(Scan(root, walk).value))).value;
    assert NewContentDirectory(root, walk, fs).value.markdownFiles == ArticlesOf(listed, root);
    var i :| 0 <= i < |listed| && listed[i].FileNode? && ArticleFileFromFile(listed[i].path, root) == Some(a);
    ArticleFileMeaning(listed[i].path, root);
  }
}
