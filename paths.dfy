/**
 * Rust's `std::path::Path` on Unix, restricted to paths whose components are
 * a root marker and ordinary names: `join`, `parent`, `file_name`,
 * `extension`, `strip_prefix`, the byte length of the textual form and the
 * component-wise order `Ord for Path` uses.
 */
module Paths {
  import opened Wrappers
  import opened Strings

  /** An absolute flag (a leading `/`) and the ordinary components. */
  datatype Path = Path(absolute: bool, components: seq<string>)

  /** `Path::new("")` / `PathBuf::new()`. */
  const EmptyPath := Path(false, [])

  function Relative(components: seq<string>): Path { Path(false, components) }

  /** `a.join(b)`: an absolute `b` replaces `a`; otherwise the components are appended. */
  function Join(a: Path, b: Path): Path {
    if b.absolute then b else Path(a.absolute, a.components + b.components)
  }

  lemma JoinEmpty(a: Path)
    ensures Join(a, EmptyPath) == a
    ensures Join(EmptyPath, a) == a
  {
    assert a.components + [] == a.components;
  }

  lemma JoinAssociative(a: Path, b: Path, c: Path)
    ensures Join(Join(a, b), c) == Join(a, Join(b, c))
  {
    if !b.absolute && !c.absolute {
      assert (a.components + b.components) + c.components == a.components + (b.components + c.components);
    }
  }

  /** `p.parent()`: everything but the last component; `None` for `""` and `/`. */
  function Parent(p: Path): (r: Option<Path>)
    ensures r.Some? <==> |p.components| > 0
    ensures r.Some? ==> r.value.absolute == p.absolute && r.value.components + [p.components[|p.components| - 1]] == p.components
  {
    if |p.components| == 0 then None else Some(Path(p.absolute, p.components[..|p.components| - 1]))
  }

  /** `p.file_name()`: the last component, unless the path has none or ends in `..`. */
  function FileName(p: Path): Option<string> {
    if |p.components| == 0 || p.components[|p.components| - 1] == ".." then None
    else Some(p.components[|p.components| - 1])
  }

  /** An ordinary name: not empty and neither `.` nor `..`, which paths treat specially. */
  predicate OrdinaryName(n: string) { n != "" && n != "." && n != ".." }

  /** A name joined onto any path is that path's file name. */
  lemma FileNameOfJoin(p: Path, n: string)
    requires OrdinaryName(n)
    ensures FileName(Join(p, Relative([n]))) == Some(n)
  {
    assert Join(p, Relative([n])).components == p.components + [n];
  }

  /** A path with a file name is its parent joined with that name. */
  lemma FileNameParentRoundTrip(p: Path)
    requires FileName(p).Some?
    ensures Parent(p).Some? && Join(Parent(p).value, Relative([FileName(p).value])) == p
  {
    assert Parent(p).value.components + [FileName(p).value] == p.components;
  }

  /**
   * `p.extension()`: the text after the last `.` of the file name; absent
   * without a file name, when there is no dot and when the only dot is the
   * first character (`.bashrc`).
   */
  function Extension(p: Path): Option<string> {
    match FileName(p)
    case None => None
    case Some(name) =>
      match LastIndexOf(name, '.')
      case None => None
      case Some(k) => if k == 0 then None else Some(name[k + 1..])
  }

  lemma ExtensionMeaning(p: Path)
    ensures Extension(p).Some? <==>
      (FileName(p).Some? && exists k :: 0 < k < |FileName(p).value| && FileName(p).value[k] == '.')
    ensures Extension(p).Some? ==>
      var name := FileName(p).value;
      var e := Extension(p).value;
      |e| < |name| && name[|name| - |e| - 1..] == "." + e && (forall k :: 0 <= k < |e| ==> e[k] != '.')
  {
    if Extension(p).Some? {
      var name := FileName(p).value;
      var k := LastIndexOf(name, '.').value;
      assert name[k..] == "." + name[k + 1..];
    }
  }

  /** `a` is a prefix of `b`. */
  predicate IsPrefix(a: seq<string>, b: seq<string>) { |a| <= |b| && b[..|a|] == a }

  /**
   * `p.strip_prefix(base)`: what is left of `p` after the components of
   * `base` (the root counting as a component), or `None`.
   */
  function StripPrefix(p: Path, base: Path): Option<Path> {
    if p.absolute == base.absolute then
      if IsPrefix(base.components, p.components) then Some(Path(false, p.components[|base.components|..])) else None
    else if !base.absolute && base.components == [] then Some(p)
    else None
  }

  lemma StripPrefixJoin(base: Path, rel: Path)
    requires !rel.absolute
    ensures StripPrefix(Join(base, rel), base) == Some(rel)
  {
    assert (base.components + rel.components)[|base.components|..] == rel.components;
  }

  lemma JoinStripPrefix(p: Path, base: Path)
    requires StripPrefix(p, base).Some?
    ensures Join(base, StripPrefix(p, base).value) == p
  {
    if p.absolute == base.absolute {
      assert base.components + p.components[|base.components|..] == p.components;
    }
  }

  /** The textual form: a leading `/` when absolute, then the components separated by `/`. */
  function Render(p: Path): string {
    (if p.absolute then "/" else "") + Strings.Join(p.components, "/")
  }

  /** `p.as_os_str().len()`: the byte length of the textual form. */
  function ByteLength(p: Path): nat { ByteLen(Render(p)) }

  /** One item of `Path::components()`; the derived order puts the root first. */
  datatype Component = RootDir | Normal(name: string)

  function ComponentsOf(p: Path): (r: seq<Component>)
    ensures |r| == |p.components| + (if p.absolute then 1 else 0)
    ensures (|r| > 0 && r[0] == RootDir) <==> p.absolute
  {
    (if p.absolute then [RootDir] else []) + seq(|p.components|, i requires 0 <= i < |p.components| => Normal(p.components[i]))
  }

  predicate ComponentLess(a: Component, b: Component) {
    match (a, b)
    case (RootDir, RootDir) => false
    case (RootDir, Normal(_)) => true
    case (Normal(_), RootDir) => false
    case (Normal(x), Normal(y)) => StrLess(x, y)
  }

  /** Lexicographic order on component lists, as `Iterator::cmp` computes it. */
  predicate ComponentsLess(a: seq<Component>, b: seq<Component>) {
    if |a| == 0 then |b| > 0
    else if |b| == 0 then false
    else if a[0] != b[0] then ComponentLess(a[0], b[0])
    else ComponentsLess(a[1..], b[1..])
  }

  /** `p < q` for Rust `Path`s. */
  predicate PathLess(p: Path, q: Path) { ComponentsLess(ComponentsOf(p), ComponentsOf(q)) }

  lemma ComponentLessStrict(a: Component, b: Component, c: Component)
    ensures !ComponentLess(a, a)
    ensures ComponentLess(a, b) && ComponentLess(b, c) ==> ComponentLess(a, c)
    ensures a == b || ComponentLess(a, b) || ComponentLess(b, a)
  {
    if a.Normal? { StrLessIrreflexive(a.name); }
    if a.Normal? && b.Normal? && c.Normal? && ComponentLess(a, b) && ComponentLess(b, c) {
      StrLessTransitive(a.name, b.name, c.name);
    }
    if a.Normal? && b.Normal? { StrLessTotal(a.name, b.name); }
  }

  lemma {:induction false} ComponentsLessIrreflexive(a: seq<Component>)
    ensures !ComponentsLess(a, a)
  {
    if |a| > 0 { ComponentsLessIrreflexive(a[1..]); }
  }

  lemma {:induction false} ComponentsLessTransitive(a: seq<Component>, b: seq<Component>, c: seq<Component>)
    requires ComponentsLess(a, b) && ComponentsLess(b, c)
    ensures ComponentsLess(a, c)
  {
    if |a| > 0 && |b| > 0 && |c| > 0 {
      ComponentLessStrict(a[0], b[0], c[0]);
      if a[0] == b[0] && b[0] == c[0] {
        ComponentsLessTransitive(a[1..], b[1..], c[1..]);
      }
    }
  }

  lemma {:induction false} ComponentsLessTotal(a: seq<Component>, b: seq<Component>)
    ensures a == b || ComponentsLess(a, b) || ComponentsLess(b, a)
  {
    if |a| > 0 && |b| > 0 {
      ComponentLessStrict(a[0], b[0], b[0]);
      if a[0] == b[0] {
        ComponentsLessTotal(a[1..], b[1..]);
        if a[1..] == b[1..] {
          assert a == [a[0]] + a[1..] && b == [b[0]] + b[1..];
        }
      }
    }
  }

  lemma ComponentsOfInjective(p: Path, q: Path)
    requires ComponentsOf(p) == ComponentsOf(q)
    ensures p == q
  {
    var cp, cq := ComponentsOf(p), ComponentsOf(q);
    assert p.absolute == q.absolute;
    {
      var off := if p.absolute then 1 else 0;
      assert |p.components| == |q.components|;
      forall i | 0 <= i < |p.components| ensures p.components[i] == q.components[i] {
        assert cp[off + i] == cq[off + i];
      }
      assert p.components == q.components;
    }
  }

  /** `PathLess` is a strict total order, so sorting and de-duplicating paths is well defined. */
  lemma PathLessStrictTotal(p: Path, q: Path, r: Path)
    ensures !PathLess(p, p)
    ensures PathLess(p, q) && PathLess(q, r) ==> PathLess(p, r)
    ensures p == q || PathLess(p, q) || PathLess(q, p)
  {
    ComponentsLessIrreflexive(ComponentsOf(p));
    if PathLess(p, q) && PathLess(q, r) {
      ComponentsLessTransitive(ComponentsOf(p), ComponentsOf(q), ComponentsOf(r));
    }
    ComponentsLessTotal(ComponentsOf(p), ComponentsOf(q));
    if ComponentsOf(p) == ComponentsOf(q) { ComponentsOfInjective(p, q); }
  }
}
