/**
 * The construction planner: a tree of directories, each with the files to
 * write in it, flattened into one list of directories to create and one
 * list of files to write; then the plan carried out, and the copying of a
 * directory tree into the output, over a file system given as the
 * failures its operations report.
 */
module Construct {
  import opened Wrappers
  import opened Paths
  import S = Sorting
  import St = Structure

  /** `ConstructFile`: a path relative to its node and the text to write there. */
  datatype ConstructFile = ConstructFile(path: Path, content: string)

  /** `Construction`: a directory, its files and its sub-directories. */
  datatype Construction = Construction(dir: Path, content: seq<ConstructFile>, subDir: seq<Construction>)

  /** A plan as a value: the directories to create and the files to write, in order. */
  datatype Plan = Plan(dirs: seq<Path>, files: seq<(Path, string)>)

  /** `ConstructionPlan::merge` on values: both lists of `other` follow those of `a`. */
  function MergePlans(a: Plan, other: Plan): Plan {
    Plan(a.dirs + other.dirs, a.files + other.files)
  }

  lemma MergeAssociative(a: Plan, b: Plan, c: Plan)
    ensures MergePlans(MergePlans(a, b), c) == MergePlans(a, MergePlans(b, c))
  {
    assert (a.dirs + b.dirs) + c.dirs == a.dirs + (b.dirs + c.dirs);
    assert (a.files + b.files) + c.files == a.files + (b.files + c.files);
  }

  const EmptyPlan := Plan([], [])

  // ---------------------------------------------------------------------
  // prefix_dirs
  // ---------------------------------------------------------------------

  function JoinAll(prefix: Path, ps: seq<Path>): seq<Path> {
    seq(|ps|, i requires 0 <= i < |ps| => Join(prefix, ps[i]))
  }

  function JoinFiles(prefix: Path, fs: seq<(Path, string)>): seq<(Path, string)> {
    seq(|fs|, i requires 0 <= i < |fs| => (Join(prefix, fs[i].0), fs[i].1))
  }

  /** `prefix_dirs` on values: every path is joined onto `prefix`; the contents are kept. */
  function Prefixed(prefix: Path, p: Plan): Plan {
    Plan(JoinAll(prefix, p.dirs), JoinFiles(prefix, p.files))
  }

  predicate AllAbsolute(p: Plan) {
    (forall i :: 0 <= i < |p.dirs| ==> p.dirs[i].absolute) &&
    (forall i :: 0 <= i < |p.files| ==> p.files[i].0.absolute)
  }

  /** Joining onto an absolute path replaces it, so a plan of absolute paths is left as it is. */
  lemma PrefixAbsolute(prefix: Path, p: Plan)
    requires AllAbsolute(p)
    ensures Prefixed(prefix, p) == p
  {
  }

  /** The empty prefix adds nothing, whatever the paths. */
  lemma PrefixEmpty(p: Plan)
    ensures Prefixed(EmptyPath, p) == p
  {
    forall i | 0 <= i < |p.dirs| ensures Join(EmptyPath, p.dirs[i]) == p.dirs[i] {
      JoinEmpty(p.dirs[i]);
    }
    forall i | 0 <= i < |p.files| ensures Join(EmptyPath, p.files[i].0) == p.files[i].0 {
      JoinEmpty(p.files[i].0);
    }
  }

  lemma PrefixMerge(prefix: Path, a: Plan, b: Plan)
    ensures Prefixed(prefix, MergePlans(a, b)) == MergePlans(Prefixed(prefix, a), Prefixed(prefix, b))
  {
  }

  // ---------------------------------------------------------------------
  // _plan
  // ---------------------------------------------------------------------

  /** The node's files, each joined onto the node's directory, in order. */
  function FilesOf(root: Path, content: seq<ConstructFile>): seq<(Path, string)> {
    seq(|content|, i requires 0 <= i < |content| => (Join(root, content[i].path), content[i].content))
  }

  /** The immediate parent of each file that has one, joined onto the node's directory. */
  function ParentsOf(root: Path, content: seq<ConstructFile>): (r: seq<Path>)
    ensures |r| <= |content|
  {
    if |content| == 0 then []
    else
      ParentsOf(root, content[..|content| - 1]) +
      match Parent(content[|content| - 1].path)
      case None => []
      case Some(d) => [Join(root, d)]
  }

  lemma {:induction false} ParentsOfMeaning(root: Path, content: seq<ConstructFile>)
    ensures forall d :: d in ParentsOf(root, content) <==>
      exists k :: 0 <= k < |content| && Parent(content[k].path).Some? && d == Join(root, Parent(content[k].path).value)
  {
    if |content| > 0 {
      var init := content[..|content| - 1];
      ParentsOfMeaning(root, init);
      assert forall k :: 0 <= k < |init| ==> init[k] == content[k];
    }
  }

  /** `used_path` after `sort()` and `dedup()`. */
  function UsedDirs(root: Path, content: seq<ConstructFile>): seq<Path> {
    S.SortDedup(ParentsOf(root, content), PathLess)
  }

  /**
   * The directories a node plans for its files: strictly ascending, so
   * without duplicates, and exactly the immediate parents of its files.
   */
  lemma UsedDirsMeaning(root: Path, content: seq<ConstructFile>)
    ensures S.StrictlySorted(UsedDirs(root, content), PathLess)
    ensures forall d :: d in UsedDirs(root, content) <==>
      exists k :: 0 <= k < |content| && Parent(content[k].path).Some? && d == Join(root, Parent(content[k].path).value)
  {
    PathLessIsStrictTotalOrder();
    S.SortDedupSorted(ParentsOf(root, content), PathLess);
    ParentsOfMeaning(root, content);
  }

  lemma PathLessIsStrictTotalOrder()
    ensures S.StrictTotalOrder(PathLess)
  {
    forall p: Path, q: Path, r: Path {
      PathLessStrictTotal(p, q, r);
    }
  }

  /** What a node plans by itself: its directory, its files' parents, and its files. */
  function OwnPlan(c: Construction, root: Path): Plan {
    Plan([root] + UsedDirs(root, c.content), FilesOf(root, c.content))
  }

  /**
   * `Construction::_plan`: the node's own plan, then each child's plan,
   * made against the node's joined directory and then passed through
   * `prefix_dirs` with the node's own `dir`, in child order.
   */
  function PlanOf(c: Construction, parent: Path): Plan
    decreases c, 1
  {
    var root := Join(parent, c.dir);
    MergePlans(OwnPlan(c, root), ChildPlans(c, root, |c.subDir|))
  }

  /** The merged plans of the first `n` children. */
  function ChildPlans(c: Construction, root: Path, n: nat): Plan
    requires n <= |c.subDir|
    decreases c, 0, n
  {
    if n == 0 then EmptyPlan
    else MergePlans(ChildPlans(c, root, n - 1), Prefixed(c.dir, PlanOf(c.subDir[n - 1], root)))
  }

  /** The number of `ConstructFile`s in a tree. */
  function CountFiles(c: Construction): nat
    decreases c, 1
  {
    |c.content| + CountChildFiles(c, |c.subDir|)
  }

  function CountChildFiles(c: Construction, n: nat): nat
    requires n <= |c.subDir|
    decreases c, 0, n
  {
    if n == 0 then 0 else CountChildFiles(c, n - 1) + CountFiles(c.subDir[n - 1])
  }

  /** One planned file per `ConstructFile` of the tree. */
  lemma {:induction false} PlanFileCount(c: Construction, parent: Path)
    ensures |PlanOf(c, parent).files| == CountFiles(c)
    decreases c, 1
  {
    ChildPlanFileCount(c, Join(parent, c.dir), |c.subDir|);
  }

  lemma {:induction false} ChildPlanFileCount(c: Construction, root: Path, n: nat)
    requires n <= |c.subDir|
    ensures |ChildPlans(c, root, n).files| == CountChildFiles(c, n)
    decreases c, 0, n
  {
    if n > 0 {
      ChildPlanFileCount(c, root, n - 1);
      PlanFileCount(c.subDir[n - 1], root);
    }
  }

  /**
   * The node's directory is planned first, followed by its files' parents;
   * its own files come first among the files, in content order.
   */
  lemma PlanStartsWithOwn(c: Construction, parent: Path)
    ensures var root := Join(parent, c.dir);
      var p := PlanOf(c, parent);
      |p.dirs| >= 1 + |UsedDirs(root, c.content)| && p.dirs[0] == root &&
      p.dirs[1..1 + |UsedDirs(root, c.content)|] == UsedDirs(root, c.content) &&
      |p.files| >= |c.content| && p.files[..|c.content|] == FilesOf(root, c.content)
  {
    var root := Join(parent, c.dir);
    var own := OwnPlan(c, root);
    var p := PlanOf(c, parent);
    assert p.dirs[..|own.dirs|] == own.dirs;
    assert p.dirs[1..1 + |UsedDirs(root, c.content)|] == own.dirs[1..];
  }

  /**
   * The same flattening without the second prefix: each child is planned
   * against the node's joined directory and taken as it is.
   */
  function ReferencePlan(c: Construction, parent: Path): Plan
    decreases c, 1
  {
    var root := Join(parent, c.dir);
    MergePlans(OwnPlan(c, root), ReferenceChildren(c, root, |c.subDir|))
  }

  function ReferenceChildren(c: Construction, root: Path, n: nat): Plan
    requires n <= |c.subDir|
    decreases c, 0, n
  {
    if n == 0 then EmptyPlan
    else MergePlans(ReferenceChildren(c, root, n - 1), ReferencePlan(c.subDir[n - 1], root))
  }

  lemma AbsoluteMerge(a: Plan, b: Plan)
    requires AllAbsolute(a) && AllAbsolute(b)
    ensures AllAbsolute(MergePlans(a, b))
  {
    var m := MergePlans(a, b);
    forall i | 0 <= i < |m.dirs| ensures m.dirs[i].absolute {
      if i >= |a.dirs| { assert m.dirs[i] == b.dirs[i - |a.dirs|]; }
    }
    forall i | 0 <= i < |m.files| ensures m.files[i].0.absolute {
      if i >= |a.files| { assert m.files[i] == b.files[i - |a.files|]; }
    }
  }

  lemma OwnPlanAbsolute(c: Construction, root: Path)
    requires root.absolute
    ensures AllAbsolute(OwnPlan(c, root))
  {
    var used := UsedDirs(root, c.content);
    UsedDirsMeaning(root, c.content);
    forall i | 0 <= i < |used| ensures used[i].absolute {
      assert used[i] in used;
    }
  }

  /**
   * Under an absolute parent every planned path is absolute, so the second
   * prefix changes nothing and `_plan` is the plain flattening.
   */
  lemma {:induction false} PlanOfAbsolute(c: Construction, parent: Path)
    requires parent.absolute
    ensures PlanOf(c, parent) == ReferencePlan(c, parent)
    ensures AllAbsolute(PlanOf(c, parent))
    decreases c, 1
  {
    var root := Join(parent, c.dir);
    ChildPlansAbsolute(c, root, |c.subDir|);
    OwnPlanAbsolute(c, root);
    AbsoluteMerge(OwnPlan(c, root), ChildPlans(c, root, |c.subDir|));
  }

  lemma {:induction false} ChildPlansAbsolute(c: Construction, root: Path, n: nat)
    requires root.absolute && n <= |c.subDir|
    ensures ChildPlans(c, root, n) == ReferenceChildren(c, root, n)
    ensures AllAbsolute(ChildPlans(c, root, n))
    decreases c, 0, n
  {
    if n > 0 {
      ChildPlansAbsolute(c, root, n - 1);
      PlanOfAbsolute(c.subDir[n - 1], root);
      PrefixAbsolute(c.dir, PlanOf(c.subDir[n - 1], root));
      AbsoluteMerge(ChildPlans(c, root, n - 1), PlanOf(c.subDir[n - 1], root));
    }
  }

  const PagesDir := Relative(["pages"])
  const SubDir := Relative(["sub"])
  const Nested := Construction(PagesDir, [], [Construction(SubDir, [], [])])

  /**
   * Under a relative parent the node's directory is applied twice to its
   * children: the child of `pages` is planned at `pages/pages/sub`.
   */
  lemma RelativeParentDoublesPrefix()
    ensures PlanOf(Nested, EmptyPath).dirs == [PagesDir, Relative(["pages", "pages", "sub"])]
    ensures ReferencePlan(Nested, EmptyPath).dirs == [PagesDir, Relative(["pages", "sub"])]
  {
    JoinEmpty(PagesDir);
    var child := Construction(SubDir, [], []);
    assert UsedDirs(PagesDir, []) == [];
    assert UsedDirs(Relative(["pages", "sub"]), []) == [];
    assert Join(PagesDir, SubDir) == Relative(["pages", "sub"]);
    assert PlanOf(child, PagesDir) == Plan([Relative(["pages", "sub"])], []);
    assert Join(PagesDir, Relative(["pages", "sub"])) == Relative(["pages", "pages", "sub"]);
    assert ChildPlans(Nested, PagesDir, 1) == Plan([Relative(["pages", "pages", "sub"])], []);
    assert ReferencePlan(child, PagesDir) == Plan([Relative(["pages", "sub"])], []);
    assert ReferenceChildren(Nested, PagesDir, 1) == Plan([Relative(["pages", "sub"])], []);
  }

  // ---------------------------------------------------------------------
  // plan
  // ---------------------------------------------------------------------

  /** `Construction::plan`: the directories stably sorted by the byte length of the path. */
  function FinalPlan(c: Construction, root: Path): Plan {
    var p := PlanOf(c, root);
    Plan(S.SortByKey(p.dirs, ByteLength), p.files)
  }

  /**
   * The final directories are the planned ones, rearranged: non-decreasing
   * in length, and with the directories of each length in planning order;
   * the files are untouched.
   */
  lemma FinalPlanOrder(c: Construction, root: Path)
    ensures S.SortedByKey(FinalPlan(c, root).dirs, ByteLength)
    ensures multiset(FinalPlan(c, root).dirs) == multiset(PlanOf(c, root).dirs)
    ensures forall k :: S.WithKey(FinalPlan(c, root).dirs, ByteLength, k) == S.WithKey(PlanOf(c, root).dirs, ByteLength, k)
    ensures FinalPlan(c, root).files == PlanOf(c, root).files
  {
    S.SortByKeyCorrect(PlanOf(c, root).dirs, ByteLength);
  }

  // ---------------------------------------------------------------------
  // Carrying out a plan, and copying files
  // ---------------------------------------------------------------------

  /** The file-system operations, in the order they are issued. */
  datatype Action = CreateDirAll(dir: Path) | WriteFile(path: Path, content: string) | CopyFile(from: Path, to: Path)

  /**
   * Issues the actions in order until one fails: the actions issued, the
   * last of them the failing one, and the first error. `fs` says which
   * operations fail and how.
   */
  function Run(actions: seq<Action>, fs: Action -> Option<St.IoError>): (seq<Action>, Result<(), St.IoError>) {
    if |actions| == 0 then ([], Ok(()))
    else match fs(actions[0])
      case Some(e) => ([actions[0]], Err(e))
      case None =>
        var rest := Run(actions[1..], fs);
        ([actions[0]] + rest.0, rest.1)
  }

  /**
   * A run succeeds iff no action fails, and then issues them all; a run
   * that fails issues a prefix whose last action is the first to fail, and
   * reports that action's error.
   */
  lemma {:induction false} RunMeaning(actions: seq<Action>, fs: Action -> Option<St.IoError>)
    ensures var r := Run(actions, fs);
      (r.1.Ok? <==> forall k :: 0 <= k < |actions| ==> fs(actions[k]).None?) &&
      (r.1.Ok? ==> r == (actions, Ok(()))) &&
      (r.1.Err? ==> 0 < |r.0| <= |actions| && r.0 == actions[..|r.0|] && fs(actions[|r.0| - 1]) == Some(r.1.error)) &&
      (r.1.Err? ==> forall k :: 0 <= k < |r.0| - 1 ==> fs(actions[k]).None?)
  {
    if |actions| > 0 && fs(actions[0]).None? {
      var tail := actions[1..];
      RunMeaning(tail, fs);
      assert forall k :: 1 <= k < |actions| ==> actions[k] == tail[k - 1];
      var rest := Run(tail, fs);
      if rest.1.Ok? {
        assert [actions[0]] + tail == actions;
      } else {
        assert [actions[0]] + rest.0 == actions[..|rest.0| + 1];
      }
    }
  }

  /**
   * Running two lists in a row: if the first fails, the second is never
   * started; otherwise the second runs after all of the first.
   */
  lemma {:induction false} RunConcat(a: seq<Action>, b: seq<Action>, fs: Action -> Option<St.IoError>)
    ensures Run(a + b, fs) == if Run(a, fs).1.Err? then Run(a, fs) else (a + Run(b, fs).0, Run(b, fs).1)
    decreases |a|
  {
    if |a| > 0 {
      assert (a + b)[0] == a[0];
      assert (a + b)[1..] == a[1..] + b;
      if fs(a[0]).None? {
        RunConcat(a[1..], b, fs);
        assert [a[0]] + (a[1..] + Run(b, fs).0) == a + Run(b, fs).0;
      }
    } else {
      assert a + b == b;
      assert a + Run(b, fs).0 == Run(b, fs).0;
    }
  }

  /** The directories, last first, as `create_dir_all` calls. */
  function Creates(dirs: seq<Path>): (r: seq<Action>)
    ensures |r| == |dirs| && forall k :: 0 <= k < |dirs| ==> r[k] == CreateDirAll(dirs[|dirs| - 1 - k])
  {
    if |dirs| == 0 then [] else Creates(dirs[1..]) + [CreateDirAll(dirs[0])]
  }

  function Writes(files: seq<(Path, string)>): seq<Action> {
    seq(|files|, k requires 0 <= k < |files| => WriteFile(files[k].0, files[k].1))
  }

  /** `ConstructionPlan::execute` issues every directory, last first, before any file. */
  function PlanActions(p: Plan): seq<Action> {
    Creates(p.dirs) + Writes(p.files)
  }

  /** No file is written before every planned directory has been created. */
  lemma DirsBeforeFiles(p: Plan, fs: Action -> Option<St.IoError>)
    ensures var done := Run(PlanActions(p), fs).0;
      forall k :: 0 <= k < |done| && done[k].WriteFile? ==> |done| > |p.dirs| && k >= |p.dirs|
  {
    var actions := PlanActions(p);
    RunMeaning(actions, fs);
    var done := Run(actions, fs).0;
    forall k | 0 <= k < |done| && done[k].WriteFile? ensures |done| > |p.dirs| && k >= |p.dirs| {
      assert done[k] == actions[k];
    }
  }

  /** `ConstructionPlan`: the two lists, which `merge` and `prefix_dirs` change in place. */
  class ConstructionPlan {
    var dirs: seq<Path>
    var files: seq<(Path, string)>

    function Value(): Plan
      reads this
    {
      Plan(dirs, files)
    }

    constructor (dirs: seq<Path>, files: seq<(Path, string)>)
      ensures Value() == Plan(dirs, files)
    {
      this.dirs := dirs;
      this.files := files;
    }

    /** `merge`: the other plan's lists are appended to this one's. */
    method Merge(other: Plan)
      modifies this
      ensures Value() == MergePlans(old(Value()), other)
    {
      dirs := dirs + other.dirs;
      files := files + other.files;
    }

    /** `prefix_dirs`: each path in turn is replaced by its join onto `prefix`. */
    method PrefixDirs(prefix: Path)
      modifies this
      ensures Value() == Prefixed(prefix, old(Value()))
    {
      var i := 0;
      while i < |dirs|
        invariant 0 <= i <= |dirs| == |old(dirs)|
        invariant forall k :: 0 <= k < i ==> dirs[k] == Join(prefix, old(dirs)[k])
        invariant forall k :: i <= k < |dirs| ==> dirs[k] == old(dirs)[k]
        invariant files == old(files)
      {
        dirs := dirs[i := Join(prefix, dirs[i])];
        i := i + 1;
      }
      var j := 0;
      while j < |files|
        invariant 0 <= j <= |files| == |old(files)|
        invariant forall k :: 0 <= k < j ==> files[k] == (Join(prefix, old(files)[k].0), old(files)[k].1)
        invariant forall k :: j <= k < |files| ==> files[k] == old(files)[k]
        invariant |dirs| == |old(dirs)| && forall k :: 0 <= k < |dirs| ==> dirs[k] == Join(prefix, old(dirs)[k])
      {
        files := files[j := (Join(prefix, files[j].0), files[j].1)];
        j := j + 1;
      }
      assert dirs == JoinAll(prefix, old(dirs));
      assert files == JoinFiles(prefix, old(files));
    }

    /** `plan.dirs.sort_by_key(len)`: a stable sort by byte length. */
    method SortDirsByLength()
      modifies this
      ensures Value() == Plan(S.SortByKey(old(dirs), ByteLength), old(files))
    {
      dirs := S.StableSortByKey(dirs, ByteLength);
    }

    /**
     * `execute`: `create_dir_all` for each directory, last first, then
     * `write` for each file, stopping at the first error.
     */
    method Execute(fs: Action -> Option<St.IoError>) returns (done: seq<Action>, r: Result<(), St.IoError>)
      ensures (done, r) == Run(PlanActions(Value()), fs)
    {
      RunConcat(Creates(dirs), Writes(files), fs);
      done, r := CreateDirs(fs);
      if r.Err? {
        return;
      }
      RunMeaning(Creates(dirs), fs);
      var written;
      written, r := WriteFiles(fs);
      done := done + written;
    }

    /** The first loop of `execute`: `create_dir_all` from the last directory to the first. */
    method CreateDirs(fs: Action -> Option<St.IoError>) returns (done: seq<Action>, r: Result<(), St.IoError>)
      ensures (done, r) == Run(Creates(dirs), fs)
    {
      done := [];
      var i := |dirs|;
      while i > 0
        invariant 0 <= i <= |dirs|
        invariant done == Creates(dirs[i..]) && Run(done, fs).1.Ok?
      {
        var a := CreateDirAll(dirs[i - 1]);
        assert Creates(dirs[i - 1..]) == done + [a] by {
          assert dirs[i - 1..][1..] == dirs[i..];
        }
        RunConcat(done, [a], fs);
        if fs(a).Some? {
          assert dirs == dirs[..i - 1] + dirs[i - 1..];
          CreatesAppend(dirs[..i - 1], dirs[i - 1..]);
          RunConcat(done + [a], Creates(dirs[..i - 1]), fs);
          return done + [a], Err(fs(a).value);
        }
        done := done + [a];
        i := i - 1;
      }
      assert dirs[0..] == dirs;
      RunMeaning(done, fs);
      r := Ok(());
    }

    /** The second loop of `execute`: `write` for each file in order. */
    method WriteFiles(fs: Action -> Option<St.IoError>) returns (done: seq<Action>, r: Result<(), St.IoError>)
      ensures (done, r) == Run(Writes(files), fs)
    {
      done := [];
      var j := 0;
      while j < |files|
        invariant 0 <= j <= |files|
        invariant done == Writes(files[..j]) && Run(done, fs).1.Ok?
      {
        var a := WriteFile(files[j].0, files[j].1);
        ghost var pre := Writes(files[..j + 1]);
        assert pre == done + [a];
        RunConcat(done, [a], fs);
        if fs(a).Some? {
          WritesPrefix(files, j + 1);
          RunConcat(pre, Writes(files[j + 1..]), fs);
          return done + [a], Err(fs(a).value);
        }
        done := done + [a];
        j := j + 1;
      }
      assert files[..j] == files;
      RunMeaning(done, fs);
      r := Ok(());
    }
  }

  lemma {:induction false} CreatesAppend(a: seq<Path>, b: seq<Path>)
    ensures Creates(a + b) == Creates(b) + Creates(a)
    decreases |a|
  {
    if |a| == 0 {
      assert a + b == b;
    } else {
      CreatesAppend(a[1..], b);
      assert (a + b)[1..] == a[1..] + b;
    }
  }

  lemma WritesPrefix(files: seq<(Path, string)>, i: nat)
    requires i <= |files|
    ensures Writes(files) == Writes(files[..i]) + Writes(files[i..])
  {
    var w := Writes(files);
    var v := Writes(files[..i]) + Writes(files[i..]);
    assert |w| == |v|;
    forall k | 0 <= k < |w| ensures w[k] == v[k] {
      if k >= i { assert files[i..][k - i] == files[k]; }
    }
  }

  /** `_plan` on a fresh plan: the node's part, then each child's plan, prefixed and merged. */
  method PlanInto(c: Construction, parent: Path) returns (plan: ConstructionPlan)
    ensures fresh(plan) && plan.Value() == PlanOf(c, parent)
    decreases c, 1
  {
    var root := Join(parent, c.dir);
    var own := OwnPlan(c, root);
    plan := new ConstructionPlan(own.dirs, own.files);
    assert MergePlans(own, EmptyPlan) == own;
    var i := 0;
    while i < |c.subDir|
      invariant 0 <= i <= |c.subDir|
      invariant fresh(plan) && plan.Value() == MergePlans(own, ChildPlans(c, root, i))
    {
      ghost var before := ChildPlans(c, root, i);
      ghost var child := Prefixed(c.dir, PlanOf(c.subDir[i], root));
      MergeChild(plan, c, root, i);
      assert ChildPlans(c, root, i + 1) == MergePlans(before, child);
      MergeAssociative(own, before, child);
      i := i + 1;
    }
  }

  /** One step of `_plan`'s loop: child `i` planned against `root`, prefixed with the node's `dir`, merged in. */
  method MergeChild(plan: ConstructionPlan, c: Construction, root: Path, i: nat)
    requires i < |c.subDir|
    modifies plan
    ensures plan.Value() == MergePlans(old(plan.Value()), Prefixed(c.dir, PlanOf(c.subDir[i], root)))
    decreases c, 0
  {
    var sub := PlanInto(c.subDir[i], root);
    sub.PrefixDirs(c.dir);
    plan.Merge(sub.Value());
  }

  /** `Construction::plan`. */
  method MakePlan(c: Construction, root: Path) returns (plan: ConstructionPlan)
    ensures fresh(plan) && plan.Value() == FinalPlan(c, root)
  {
    plan := PlanInto(c, root);
    plan.SortDirsByLength();
  }

  // ---------------------------------------------------------------------
  // copy.rs
  // ---------------------------------------------------------------------

  /**
   * `excluded`: an absolute exclude must equal the path, a relative one
   * must equal it once joined onto `root`.
   */
  function Excluded(root: Path, path: Path, excludes: seq<Path>): (b: bool)
    ensures b <==> exists i :: 0 <= i < |excludes| && path == Join(root, excludes[i])
  {
    if |excludes| == 0 then false
    else
      var e := excludes[|excludes| - 1];
      var hit := if e.absolute then path == e else path == Join(root, e);
      assert forall i :: 0 <= i < |excludes| - 1 ==> excludes[..|excludes| - 1][i] == excludes[i];
      hit || Excluded(root, path, excludes[..|excludes| - 1])
  }

  /** With no excludes, nothing is excluded. */
  lemma NothingExcluded(root: Path, path: Path)
    ensures !Excluded(root, path, [])
  {
  }

  /**
   * The file part of the tree walk: directories are dropped, errors are
   * kept whatever the excludes, files are kept unless excluded.
   */
  function SelectFiles(root: Path, walk: seq<Result<St.Node, St.IoError>>, excludes: seq<Path>): (r: seq<Result<Path, St.IoError>>)
    ensures |r| <= |walk|
  {
    if |walk| == 0 then []
    else
      SelectFiles(root, walk[..|walk| - 1], excludes) +
      match walk[|walk| - 1]
      case Err(e) => [Err(e)]
      case Ok(FileNode(p)) => if Excluded(root, p, excludes) then [] else [Ok(p)]
      case Ok(DirNode(_)) => []
  }

  lemma {:induction false} SelectFilesMeaning(root: Path, walk: seq<Result<St.Node, St.IoError>>, excludes: seq<Path>)
    ensures forall p :: Ok(p) in SelectFiles(root, walk, excludes) <==> Ok(St.FileNode(p)) in walk && !Excluded(root, p, excludes)
    ensures forall e :: Err(e) in SelectFiles(root, walk, excludes) <==> Err(e) in walk
  {
    if |walk| > 0 {
      var init := walk[..|walk| - 1];
      SelectFilesMeaning(root, init, excludes);
      assert walk == init + [walk[|walk| - 1]];
    }
  }

  /** `copy_individual_file`'s destination: the file's path below `dir` joined onto `dest`, or its whole path if it is not below `dir`. */
  function Destination(dir: Path, dest: Path, file: Path): Path {
    Join(dest, StripPrefix(file, dir).GetOr(file))
  }

  /** A file below `dir` goes to the same place below `dest`; one that is not keeps an absolute path as it is. */
  lemma DestinationMeaning(dir: Path, dest: Path, rel: Path, file: Path)
    ensures !rel.absolute ==> Destination(dir, dest, Join(dir, rel)) == Join(dest, rel)
    ensures StripPrefix(file, dir).None? && file.absolute ==> Destination(dir, dest, file) == file
  {
    if !rel.absolute {
      StripPrefixJoin(dir, rel);
    }
  }

  /** `copy_individual_file`: create the destination's parent, if it has one, then copy. */
  function FileActions(dir: Path, dest: Path, file: Path): seq<Action> {
    var d := Destination(dir, dest, file);
    match Parent(d)
    case Some(p) => [CreateDirAll(p), CopyFile(file, d)]
    case None => [CopyFile(file, d)]
  }

  /** The copy comes last; before it, the destination's parent is created exactly when it has one. */
  lemma FileActionsMeaning(dir: Path, dest: Path, file: Path)
    ensures var r := FileActions(dir, dest, file);
      |r| >= 1 && r[|r| - 1] == CopyFile(file, Destination(dir, dest, file))
    ensures var r := FileActions(dir, dest, file);
      |r| == 2 <==> Parent(Destination(dir, dest, file)).Some?
    ensures var r := FileActions(dir, dest, file);
      |r| == 2 ==> r[0] == CreateDirAll(Parent(Destination(dir, dest, file)).value)
  {
  }

  function CopyActions(dir: Path, dest: Path, files: seq<Path>): seq<Action> {
    if |files| == 0 then [] else CopyActions(dir, dest, files[..|files| - 1]) + FileActions(dir, dest, files[|files| - 1])
  }

  method CopyIndividualFile(dir: Path, dest: Path, file: Path, fs: Action -> Option<St.IoError>)
    returns (done: seq<Action>, r: Result<(), St.IoError>)
    ensures (done, r) == Run(FileActions(dir, dest, file), fs)
  {
    var d := Destination(dir, dest, file);
    var copy := CopyFile(file, d);
    assert [copy][1..] == [];
    assert Run([], fs) == ([], Ok(()));
    assert [copy] + [] == [copy];
    assert Run([copy], fs) == ([copy], if fs(copy).Some? then Err(fs(copy).value) else Ok(()));
    done := [];
    var parent := Parent(d);
    if parent.Some? {
      var create := CreateDirAll(parent.value);
      assert FileActions(dir, dest, file) == [create, copy];
      assert [create, copy][1..] == [copy];
      done := [create];
      var e := fs(create);
      if e.Some? {
        assert Run([create, copy], fs) == ([create], Err(e.value));
        return done, Err(e.value);
      }
      assert Run([create, copy], fs) == ([create] + Run([copy], fs).0, Run([copy], fs).1);
    } else {
      assert FileActions(dir, dest, file) == [copy];
    }
    assert done + [copy] == if parent.Some? then [CreateDirAll(parent.value), copy] else [copy];
    done := done + [copy];
    r := if fs(copy).Some? then Err(fs(copy).value) else Ok(());
  }

  /** `copy_files`: each file in list order, stopping at the first error. */
  method CopyFiles(dir: Path, dest: Path, files: seq<Path>, fs: Action -> Option<St.IoError>)
    returns (done: seq<Action>, r: Result<(), St.IoError>)
    ensures (done, r) == Run(CopyActions(dir, dest, files), fs)
  {
    done := [];
    var i := 0;
    while i < |files|
      invariant 0 <= i <= |files|
      invariant done == CopyActions(dir, dest, files[..i]) && Run(done, fs).1.Ok?
    {
      var d, ri := CopyIndividualFile(dir, dest, files[i], fs);
      ghost var own := FileActions(dir, dest, files[i]);
      ghost var pre := CopyActions(dir, dest, files[..i + 1]);
      assert files[..i + 1][..i] == files[..i];
      assert pre == done + own;
      RunConcat(done, own, fs);
      RunMeaning(own, fs);
      assert Run(pre, fs) == (done + d, ri);
      if ri.Err? {
        CopyErrorStops(dir, dest, files, i + 1, fs);
        return done + d, ri;
      }
      done := done + d;
      i := i + 1;
    }
    assert files[..i] == files;
    RunMeaning(done, fs);
    r := Ok(());
  }

  /** Once the copies of a prefix of the files fail, the later files change nothing. */
  lemma {:induction false} CopyErrorStops(dir: Path, dest: Path, files: seq<Path>, i: nat, fs: Action -> Option<St.IoError>)
    requires i <= |files|
    requires Run(CopyActions(dir, dest, files[..i]), fs).1.Err?
    ensures Run(CopyActions(dir, dest, files), fs) == Run(CopyActions(dir, dest, files[..i]), fs)
    decreases |files|
  {
    if i < |files| {
      var init := files[..|files| - 1];
      assert init[..i] == files[..i];
      CopyErrorStops(dir, dest, init, i, fs);
      RunConcat(CopyActions(dir, dest, init), FileActions(dir, dest, files[|files| - 1]), fs);
    } else {
      assert files[..i] == files;
    }
  }

  /**
   * A file's copy comes right after the creation of its destination's
   * parent, before any later file is touched.
   */
  lemma {:induction false} CopyActionsShape(dir: Path, dest: Path, files: seq<Path>, i: nat)
    requires i < |files|
    ensures var before := CopyActions(dir, dest, files[..i]);
      var own := FileActions(dir, dest, files[i]);
      CopyActions(dir, dest, files[..i + 1]) == before + own &&
      own[|own| - 1] == CopyFile(files[i], Destination(dir, dest, files[i]))
  {
    assert files[..i + 1][..i] == files[..i];
    FileActionsMeaning(dir, dest, files[i]);
  }

  /**
   * `copy_dir_recursively`: the tree walk, its files selected and
   * collected (the first error ends it before anything is copied), then
   * `copy_files`.
   */
  method CopyDirRecursively(dir: Path, dest: Path, excludes: seq<Path>,
                            tree: Result<seq<Result<St.Node, St.IoError>>, St.IoError>, fs: Action -> Option<St.IoError>)
    returns (done: seq<Action>, r: Result<(), St.IoError>)
    ensures tree.Err? ==> done == [] && r == Err(tree.error)
    ensures tree.Ok? && St.CollectAll(SelectFiles(dir, tree.value, excludes)).Err? ==>
      done == [] && r == Err(St.CollectAll(SelectFiles(dir, tree.value, excludes)).error)
    ensures tree.Ok? && St.CollectAll(SelectFiles(dir, tree.value, excludes)).Ok? ==>
      (done, r) == Run(CopyActions(dir, dest, St.CollectAll(SelectFiles(dir, tree.value, excludes)).value), fs)
  {
    if tree.Err? {
      return [], Err(tree.error);
    }
    var files := St.CollectAll(SelectFiles(dir, tree.value, excludes));
    if files.Err? {
      return [], Err(files.error);
    }
    done, r := CopyFiles(dir, dest, files.value, fs);
  }

  /** A walk error, excluded or not, stops the copy before any file is copied. */
  lemma WalkErrorCopiesNothing(dir: Path, excludes: seq<Path>, walk: seq<Result<St.Node, St.IoError>>, e: St.IoError)
    requires Err(e) in walk
    ensures St.CollectAll(SelectFiles(dir, walk, excludes)).Err?
  {
    SelectFilesMeaning(dir, walk, excludes);
    var sel := SelectFiles(dir, walk, excludes);
    var k :| 0 <= k < |sel| && sel[k] == Err(e);
    assert !sel[k].Ok?;
    assert !(forall i :: 0 <= i < |sel| ==> sel[i].Ok?);
  }
}
