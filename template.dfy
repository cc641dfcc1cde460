/**
 * Placeholders in a text, `${ name }` in page templates and `:name:` for
 * emoji shortcodes: how a text splits into literal text and placeholders,
 * which names it uses, and how the placeholders are filled.
 *
 * The regular expression `{start}\s*(?<name>{content})\s*{end}` is modelled
 * by the matching it performs for the two content rules in use: the lazy
 * default `[^{end}]*?`, and a character class `[...]+` that contains neither
 * whitespace nor the end character.
 */
module Template {
  import opened Wrappers
  import opened Strings

  /** The name of the capture group a placeholder regex must have. */
  const CaptureGroup: string := "name"

  datatype Content =
    | LazyUntilEnd
    | CharClass(allowed: char -> bool)

  datatype Syntax = Syntax(start: string, end: char, content: Content)

  /** The content rules whose matching is modelled here. */
  ghost predicate Modelled(syn: Syntax) {
    syn.content.CharClass? ==>
      forall c :: syn.content.allowed(c) ==> !IsWhitespace(c) && c != syn.end
  }

  type PlaceholderSyntax = syn: Syntax | Modelled(syn)
    witness Syntax("${", '}', LazyUntilEnd)

  /** A compiled regex: its matching behaviour and `capture_names()`. */
  datatype Regex = Regex(syntax: PlaceholderSyntax, captureNames: seq<Option<string>>)

  datatype PlaceholderError =
    | InvalidRegex(context: string)
    | CaptureGroupNotFound

  datatype Placeholder = Placeholder(regex: Regex)

  /** `Placeholder::from_regex`: the regex must have a group called `name`. */
  function FromRegex(regex: Regex): (r: Result<Placeholder, PlaceholderError>)
    ensures r.Ok? <==> Some(CaptureGroup) in regex.captureNames
    ensures r.Ok? ==> r.value.regex == regex
    ensures r.Err? ==> r.error == CaptureGroupNotFound
  {
    if Some(CaptureGroup) in regex.captureNames then Ok(Placeholder(regex))
    else Err(CaptureGroupNotFound)
  }

  /**
   * A delimiter character the regex reads literally once `from_strs` has
   * escaped `[ ] { } ( ) ^ $`: any character but the metacharacters it
   * leaves as they are.
   */
  predicate Literally(c: char) {
    c !in ".*+?|\\"
  }

  /**
   * `Placeholder::from_strs` for delimiters the regex reads literally: the
   * built regex compiles, has the `name` group (group 0 is unnamed) and so
   * passes `from_regex`.
   */
  function FromStrs(start: string, end: char, content: Content): (r: Result<Placeholder, PlaceholderError>)
    requires Modelled(Syntax(start, end, content))
    requires forall k :: 0 <= k < |start| ==> Literally(start[k])
    requires Literally(end)
    ensures r.Ok? && r.value.regex.syntax == Syntax(start, end, content)
    ensures Some(CaptureGroup) in r.value.regex.captureNames
  {
    FromRegex(Regex(Syntax(start, end, content), [None, Some(CaptureGroup)]))
  }

  // ---------------------------------------------------------------------
  // Matching
  // ---------------------------------------------------------------------

  predicate StartsWithAt(t: string, i: nat, s: string) {
    i + |s| <= |t| && t[i..i + |s|] == s
  }

  /** The first position at or after `i` holding `c`. */
  function FirstIndexFrom(t: string, c: char, i: nat): (r: Option<nat>)
    requires i <= |t|
    ensures r.Some? ==> i <= r.value < |t| && t[r.value] == c
    ensures r.Some? ==> forall k :: i <= k < r.value ==> t[k] != c
    ensures r.None? ==> forall k :: i <= k < |t| ==> t[k] != c
    decreases |t| - i
  {
    if i == |t| then None
    else if t[i] == c then Some(i)
    else FirstIndexFrom(t, c, i + 1)
  }

  /** The end of the longest run of whitespace starting at `i`. */
  function SkipWhitespace(t: string, i: nat): (r: nat)
    requires i <= |t|
    ensures i <= r <= |t| && (r < |t| ==> !IsWhitespace(t[r]))
    ensures forall k :: i <= k < r ==> IsWhitespace(t[k])
    decreases |t| - i
  {
    if i < |t| && IsWhitespace(t[i]) then SkipWhitespace(t, i + 1) else i
  }

  /** The end of the longest run of characters accepted by `allowed` starting at `i`. */
  function SkipAllowed(t: string, i: nat, allowed: char -> bool): (r: nat)
    requires i <= |t|
    ensures i <= r <= |t| && (r < |t| ==> !allowed(t[r]))
    ensures forall k :: i <= k < r ==> allowed(t[k])
    decreases |t| - i
  {
    if i < |t| && allowed(t[i]) then SkipAllowed(t, i + 1, allowed) else i
  }

  /**
   * The match of the placeholder regex that starts at position `i`, as its
   * end position and the captured name, if there is one.
   */
  function MatchAt(syn: PlaceholderSyntax, t: string, i: nat): (r: Option<(nat, string)>)
    requires i <= |t|
    ensures r.Some? ==> i < r.value.0 <= |t|
  {
    if !StartsWithAt(t, i, syn.start) then None
    else
      var p := i + |syn.start|;
      match syn.content
      case LazyUntilEnd =>
        (match FirstIndexFrom(t, syn.end, p)
         case None => None
         case Some(k) => Some((k + 1, Trim(t[p..k]))))
      case CharClass(allowed) =>
        var p1 := SkipWhitespace(t, p);
        var p2 := SkipAllowed(t, p1, allowed);
        var p3 := SkipWhitespace(t, p2);
        if p1 < p2 && p3 < |t| && t[p3] == syn.end then Some((p3 + 1, t[p1..p2])) else None
  }

  /** A text split into what is copied and what is a placeholder. */
  datatype Piece = Literal(text: string) | Hole(name: string, raw: string)

  /**
   * The leftmost, non-overlapping matches from position `i` on, with each
   * character no match covers as a literal piece of its own.
   */
  function ScanFrom(syn: PlaceholderSyntax, t: string, i: nat): seq<Piece>
    requires i <= |t|
    decreases |t| - i
  {
    if i == |t| then []
    else
      match MatchAt(syn, t, i)
      case Some((j, name)) => [Hole(name, t[i..j])] + ScanFrom(syn, t, j)
      case None => [Literal([t[i]])] + ScanFrom(syn, t, i + 1)
  }

  function Scan(syn: PlaceholderSyntax, t: string): seq<Piece> { ScanFrom(syn, t, 0) }

  lemma ScanFromHole(syn: PlaceholderSyntax, t: string, i: nat, j: nat, name: string)
    requires i < |t| && MatchAt(syn, t, i) == Some((j, name))
    ensures j <= |t| && ScanFrom(syn, t, i) == [Hole(name, t[i..j])] + ScanFrom(syn, t, j)
  {
  }

  lemma ScanFromLiteral(syn: PlaceholderSyntax, t: string, i: nat)
    requires i < |t| && MatchAt(syn, t, i) == None
    ensures ScanFrom(syn, t, i) == [Literal([t[i]])] + ScanFrom(syn, t, i + 1)
  {
  }

  /** The text the pieces were cut from. */
  function Raw(ps: seq<Piece>): string {
    if |ps| == 0 then ""
    else (match ps[0] case Literal(s) => s case Hole(_, raw) => raw) + Raw(ps[1..])
  }

  function Names(ps: seq<Piece>): seq<string> {
    if |ps| == 0 then []
    else (match ps[0] case Literal(_) => [] case Hole(n, _) => [n]) + Names(ps[1..])
  }

  /** Literal text copied, every placeholder replaced by `filler` of its name. */
  function FillPieces(ps: seq<Piece>, filler: string -> string): string {
    if |ps| == 0 then ""
    else (match ps[0] case Literal(s) => s case Hole(n, _) => filler(n)) + FillPieces(ps[1..], filler)
  }

  lemma {:induction false} NamesSnoc(ps: seq<Piece>, p: Piece)
    ensures Names(ps + [p]) == Names(ps) + Names([p])
  {
    if |ps| > 0 {
      assert (ps + [p])[1..] == ps[1..] + [p];
      NamesSnoc(ps[1..], p);
    } else {
      assert ps + [p] == [p];
    }
  }

  lemma {:induction false} FillPiecesSnoc(ps: seq<Piece>, p: Piece, filler: string -> string)
    ensures FillPieces(ps + [p], filler) == FillPieces(ps, filler) + FillPieces([p], filler)
  {
    if |ps| > 0 {
      assert (ps + [p])[1..] == ps[1..] + [p];
      FillPiecesSnoc(ps[1..], p, filler);
    } else {
      assert ps + [p] == [p];
    }
  }

  lemma RawCons(q: Piece, rest: seq<Piece>)
    ensures q.Literal? ==> Raw([q] + rest) == q.text + Raw(rest)
    ensures q.Hole? ==> Raw([q] + rest) == q.raw + Raw(rest)
  {
    assert ([q] + rest)[1..] == rest;
  }

  /** Splitting loses nothing: the pieces put back together are the text. */
  lemma {:induction false} ScanFromRoundTrip(syn: PlaceholderSyntax, t: string, i: nat)
    requires i <= |t|
    ensures Raw(ScanFrom(syn, t, i)) == t[i..]
    decreases |t| - i
  {
    if i < |t| {
      match MatchAt(syn, t, i)
      case Some((j, name)) =>
        ScanFromHole(syn, t, i, j, name);
        ScanFromRoundTrip(syn, t, j);
        RawCons(Hole(name, t[i..j]), ScanFrom(syn, t, j));
        assert t[i..] == t[i..j] + t[j..];
      case None =>
        ScanFromLiteral(syn, t, i);
        ScanFromRoundTrip(syn, t, i + 1);
        RawCons(Literal([t[i]]), ScanFrom(syn, t, i + 1));
        assert t[i..] == [t[i]] + t[i + 1..];
    }
  }

  lemma ScanRoundTrip(syn: PlaceholderSyntax, t: string)
    ensures Raw(Scan(syn, t)) == t
  {
    ScanFromRoundTrip(syn, t, 0);
  }

  /**
   * What a placeholder looks like: the start delimiter, then the end
   * character, with a name that is the trimmed text in between for the lazy
   * rule (so it carries no surrounding whitespace and no end character), or
   * a non-empty run of accepted characters for a character class.
   */
  ghost predicate WellShapedHole(syn: PlaceholderSyntax, name: string, raw: string) {
    && |raw| >= |syn.start| + 1
    && raw[..|syn.start|] == syn.start
    && raw[|raw| - 1] == syn.end
    && (syn.content.LazyUntilEnd? ==>
          && name == Trim(raw[|syn.start|..|raw| - 1])
          && (forall k :: |syn.start| <= k < |raw| - 1 ==> raw[k] != syn.end))
    && (syn.content.CharClass? ==>
          && |name| > 0
          && (forall k :: 0 <= k < |name| ==> syn.content.allowed(name[k])))
  }

  lemma MatchAtShape(syn: PlaceholderSyntax, t: string, i: nat, j: nat, name: string)
    requires i <= |t| && MatchAt(syn, t, i) == Some((j, name))
    ensures j <= |t| && WellShapedHole(syn, name, t[i..j])
  {
    assert StartsWithAt(t, i, syn.start);
    var p := i + |syn.start|;
    if syn.content.LazyUntilEnd? {
      MatchAtLazy(syn, t, i, j, name);
    } else {
      var p1 := SkipWhitespace(t, p);
      var p2 := SkipAllowed(t, p1, syn.content.allowed);
      var p3 := SkipWhitespace(t, p2);
      assert j == p3 + 1 && name == t[p1..p2];
      ClassShape(syn, t, i, p3 + 1, t[p1..p2]);
    }
  }

  lemma MatchAtLazy(syn: PlaceholderSyntax, t: string, i: nat, j: nat, name: string)
    requires i <= |t| && syn.content.LazyUntilEnd? && MatchAt(syn, t, i) == Some((j, name))
    ensures j <= |t| && WellShapedHole(syn, name, t[i..j])
  {
    var p := i + |syn.start|;
    var k := FirstIndexFrom(t, syn.end, p).value;
    LazyShape(syn, t, i, p, k, j, name);
  }

  lemma LazyShape(syn: PlaceholderSyntax, t: string, i: nat, p: nat, k: nat, j: nat, name: string)
    requires syn.content.LazyUntilEnd? && p == i + |syn.start|
    requires p <= k < |t| && t[i..p] == syn.start && t[k] == syn.end
    requires forall m :: p <= m < k ==> t[m] != syn.end
    requires j == k + 1 && name == Trim(t[p..k])
    ensures WellShapedHole(syn, name, t[i..j])
  {
    var raw := t[i..j];
    assert raw[..|syn.start|] == t[i..p];
    assert |raw| - 1 == k - i;
    assert raw[|syn.start|..|raw| - 1] == t[p..k] by {
      forall m | 0 <= m < k - p ensures raw[|syn.start|..|raw| - 1][m] == t[p..k][m] {
        assert raw[|syn.start| + m] == t[i + |syn.start| + m];
      }
    }
    assert Trim(t[p..k]) == Trim(raw[|syn.start|..|raw| - 1]);
    assert raw[|raw| - 1] == syn.end;
    assert forall m :: |syn.start| <= m < |raw| - 1 ==> raw[m] != syn.end by {
      forall m | |syn.start| <= m < |raw| - 1 ensures raw[m] != syn.end {
        assert raw[m] == t[i + m];
      }
    }
  }

  lemma ClassShape(syn: PlaceholderSyntax, t: string, i: nat, j: nat, name: string)
    requires syn.content.CharClass? && i + |syn.start| < j <= |t|
    requires t[i..i + |syn.start|] == syn.start && t[j - 1] == syn.end
    requires |name| > 0 && forall m :: 0 <= m < |name| ==> syn.content.allowed(name[m])
    ensures WellShapedHole(syn, name, t[i..j])
  {
    var raw := t[i..j];
    assert raw[..|syn.start|] == t[i..i + |syn.start|];
  }

  /** Every piece the scanner produces is a literal character or a well-shaped placeholder. */
  lemma {:induction false} ScanFromShape(syn: PlaceholderSyntax, t: string, i: nat)
    requires i <= |t|
    ensures forall q :: q in ScanFrom(syn, t, i) ==>
      (q.Literal? && |q.text| == 1) || (q.Hole? && WellShapedHole(syn, q.name, q.raw))
    decreases |t| - i
  {
    if i < |t| {
      match MatchAt(syn, t, i)
      case Some((j, name)) =>
        MatchAtShape(syn, t, i, j, name);
        ScanFromShape(syn, t, j);
      case None =>
        ScanFromShape(syn, t, i + 1);
    }
  }

  // ---------------------------------------------------------------------
  // The placeholder operations
  // ---------------------------------------------------------------------

  /** `parse_used_placeholders`: the names in order of occurrence, duplicates kept. */
  function ParseUsed(p: Placeholder, haystack: string): seq<string> {
    Names(Scan(p.regex.syntax, haystack))
  }

  /** `fill_placeholders`: each match replaced by `filler(name)`. */
  function Fill(p: Placeholder, haystack: string, filler: string -> string): string {
    FillPieces(Scan(p.regex.syntax, haystack), filler)
  }

  /** The names whose filler gives nothing, in order, duplicates kept. */
  function Failing(names: seq<string>, filler: string -> Option<string>): (r: seq<string>)
    ensures |r| <= |names|
  {
    if |names| == 0 then []
    else Failing(names[..|names| - 1], filler) + (if filler(names[|names| - 1]).None? then [names[|names| - 1]] else [])
  }

  lemma {:induction false} FailingEmpty(names: seq<string>, filler: string -> Option<string>)
    ensures Failing(names, filler) == [] <==> forall k :: 0 <= k < |names| ==> filler(names[k]).Some?
  {
    if |names| > 0 {
      var init := names[..|names| - 1];
      FailingEmpty(init, filler);
      assert forall k :: 0 <= k < |init| ==> init[k] == names[k];
    }
  }

  lemma FailingStep(names: seq<string>, q: Piece, filler: string -> Option<string>)
    ensures q.Literal? ==> Failing(names + Names([q]), filler) == Failing(names, filler)
    ensures q.Hole? && filler(q.name).None? ==> Failing(names + Names([q]), filler) == Failing(names, filler) + [q.name]
    ensures q.Hole? && filler(q.name).Some? ==> Failing(names + Names([q]), filler) == Failing(names, filler)
  {
    if q.Literal? {
      assert Names([q]) == [];
      assert names + [] == names;
    } else {
      assert Names([q]) == [q.name];
      assert (names + [q.name])[..|names|] == names;
    }
  }

  /** Every failing name is a used name the filler does not know. */
  lemma {:induction false} FailingMembers(names: seq<string>, filler: string -> Option<string>)
    ensures forall n :: n in Failing(names, filler) <==> n in names && filler(n).None?
  {
    if |names| > 0 {
      var init := names[..|names| - 1];
      FailingMembers(init, filler);
      assert names == init + [names[|names| - 1]];
    }
  }

  /** The filler of a partial fill as the replacement closure applies it: a gap becomes "". */
  function OrEmpty(filler: string -> Option<string>): string -> string {
    n => filler(n).GetOr("")
  }

  /**
   * `partially_fill_placeholders`: the matches are replaced in order while
   * the names the filler does not know are collected; the text is returned
   * only if there were none.
   */
  method PartiallyFill(p: Placeholder, haystack: string, filler: string -> Option<string>)
    returns (r: Result<string, seq<string>>)
    ensures r.Ok? <==> forall k :: 0 <= k < |ParseUsed(p, haystack)| ==> filler(ParseUsed(p, haystack)[k]).Some?
    ensures r.Ok? ==> r.value == Fill(p, haystack, OrEmpty(filler))
    ensures r.Err? ==> r.error == Failing(ParseUsed(p, haystack), filler)
  {
    var pieces := Scan(p.regex.syntax, haystack);
    var replaced := "";
    var failed: seq<string> := [];
    var i := 0;
    while i < |pieces|
      invariant 0 <= i <= |pieces|
      invariant replaced == FillPieces(pieces[..i], OrEmpty(filler))
      invariant failed == Failing(Names(pieces[..i]), filler)
    {
      PartialStep(pieces, i, filler);
      match pieces[i] {
        case Literal(s) =>
          replaced := replaced + s;
        case Hole(name, _) =>
          var value := filler(name);
          if value.None? {
            failed := failed + [name];
            replaced := replaced + "";
          } else {
            replaced := replaced + value.value;
          }
      }
      i := i + 1;
    }
    assert pieces[..i] == pieces;
    FailingEmpty(ParseUsed(p, haystack), filler);
    if failed == [] {
      r := Ok(replaced);
    } else {
      r := Err(failed);
    }
  }

  /** What one more piece adds to the filled text and to the failing names. */
  lemma PartialStep(pieces: seq<Piece>, i: nat, filler: string -> Option<string>)
    requires i < |pieces|
    ensures FillPieces(pieces[..i + 1], OrEmpty(filler)) == FillPieces(pieces[..i], OrEmpty(filler)) +
      (match pieces[i] case Literal(s) => s case Hole(n, _) => filler(n).GetOr(""))
    ensures Failing(Names(pieces[..i + 1]), filler) == Failing(Names(pieces[..i]), filler) +
      (if pieces[i].Hole? && filler(pieces[i].name).None? then [pieces[i].name] else [])
  {
    assert pieces[..i + 1] == pieces[..i] + [pieces[i]];
    NamesSnoc(pieces[..i], pieces[i]);
    FillPiecesSnoc(pieces[..i], pieces[i], OrEmpty(filler));
    FailingStep(Names(pieces[..i]), pieces[i], filler);
    assert FillPieces([pieces[i]], OrEmpty(filler)) == (match pieces[i] case Literal(s) => s case Hole(n, _) => filler(n).GetOr("")) + FillPieces([], OrEmpty(filler));
  }

  /** When the filler knows every name, the partial fill has nothing to report and equals the full fill. */
  lemma PartialFillComplete(p: Placeholder, haystack: string, filler: string -> Option<string>, total: string -> string)
    requires forall n :: filler(n) == Some(total(n))
    ensures FillPieces(Scan(p.regex.syntax, haystack), OrEmpty(filler)) == Fill(p, haystack, total)
  {
    FillPiecesExt(Scan(p.regex.syntax, haystack), OrEmpty(filler), total);
  }

  lemma {:induction false} FillPiecesExt(ps: seq<Piece>, f: string -> string, g: string -> string)
    requires forall n :: f(n) == g(n)
    ensures FillPieces(ps, f) == FillPieces(ps, g)
  {
    if |ps| > 0 {
      FillPiecesExt(ps[1..], f, g);
    }
  }

  /** A text without placeholders is left as it is. */
  lemma {:induction false} FillWithoutHoles(ps: seq<Piece>, filler: string -> string)
    requires Names(ps) == []
    ensures FillPieces(ps, filler) == Raw(ps)
  {
    if |ps| > 0 {
      FillWithoutHoles(ps[1..], filler);
    }
  }

  /** Filling every placeholder with its own text gives the text back: only placeholders change. */
  lemma FillWithOwnText(p: Placeholder, t: string, filler: string -> string)
    requires forall q :: q in Scan(p.regex.syntax, t) && q.Hole? ==> filler(q.name) == q.raw
    ensures Fill(p, t, filler) == t
  {
    FillPiecesOwnText(Scan(p.regex.syntax, t), filler);
    ScanRoundTrip(p.regex.syntax, t);
  }

  lemma {:induction false} FillPiecesOwnText(ps: seq<Piece>, filler: string -> string)
    requires forall q :: q in ps && q.Hole? ==> filler(q.name) == q.raw
    ensures FillPieces(ps, filler) == Raw(ps)
  {
    if |ps| > 0 {
      assert forall q :: q in ps[1..] ==> q in ps;
      FillPiecesOwnText(ps[1..], filler);
    }
  }

  /** Every used name is written in the text as a well-shaped placeholder. */
  lemma ParseUsedWritten(p: Placeholder, t: string)
    ensures forall n :: n in ParseUsed(p, t) ==>
      exists i, j :: 0 <= i < j <= |t| && WellShapedHole(p.regex.syntax, n, t[i..j])
  {
    UsedNamesWritten(p.regex.syntax, t, 0);
  }

  lemma {:induction false} UsedNamesWritten(syn: PlaceholderSyntax, t: string, i: nat)
    requires i <= |t|
    ensures forall n :: n in Names(ScanFrom(syn, t, i)) ==>
      exists a, b :: i <= a < b <= |t| && WellShapedHole(syn, n, t[a..b])
    decreases |t| - i
  {
    if i < |t| {
      match MatchAt(syn, t, i)
      case Some((j, name)) =>
        MatchAtShape(syn, t, i, j, name);
        UsedNamesWritten(syn, t, j);
        var rest := ScanFrom(syn, t, j);
        assert ([Hole(name, t[i..j])] + rest)[1..] == rest;
        assert Names(ScanFrom(syn, t, i)) == [name] + Names(rest);
      case None =>
        UsedNamesWritten(syn, t, i + 1);
        var rest := ScanFrom(syn, t, i + 1);
        assert ([Literal([t[i]])] + rest)[1..] == rest;
        assert Names(ScanFrom(syn, t, i)) == Names(rest);
    }
  }

  /**
   * A placeholder written out with the delimiters given to `from_strs` and
   * the lazy rule reads back as one placeholder named by the trimmed text in
   * between, and filling it gives the filler's value for that name.
   */
  lemma LazyPlaceholderRoundTrip(start: string, end: char, text: string, filler: string -> string)
    requires forall k :: 0 <= k < |start| ==> Literally(start[k])
    requires Literally(end)
    requires forall k :: 0 <= k < |text| ==> text[k] != end
    ensures var p := FromStrs(start, end, LazyUntilEnd).value;
      ParseUsed(p, start + text + [end]) == [Trim(text)] &&
      Fill(p, start + text + [end], filler) == filler(Trim(text))
  {
    var syn: PlaceholderSyntax := Syntax(start, end, LazyUntilEnd);
    var t := start + text + [end];
    var k := |start| + |text|;
    assert t[..|start|] == start;
    assert t[k] == end && forall m :: |start| <= m < k ==> t[m] == text[m - |start|];
    assert FirstIndexFrom(t, end, |start|) == Some(k);
    assert t[|start|..k] == text;
    assert MatchAt(syn, t, 0) == Some((|t|, Trim(text)));
    ScanFromHole(syn, t, 0, |t|, Trim(text));
    assert t[0..|t|] == t;
    assert Scan(syn, t) == [Hole(Trim(text), t)];
    assert Names(Scan(syn, t)) == [Trim(text)] + Names([]);
    assert FillPieces(Scan(syn, t), filler) == filler(Trim(text)) + FillPieces([], filler);
  }

  // ---------------------------------------------------------------------
  // The two syntaxes in use
  // ---------------------------------------------------------------------

  /** `${ name }` with the default content rule. */
  const ShellStyle: PlaceholderSyntax := Syntax("${", '}', LazyUntilEnd)

  predicate IsShortcodeChar(c: char) {
    ('a' <= c <= 'z') || ('A' <= c <= 'Z') || c == '_' || c == '-'
  }

  /** `:name:` with names in `[a-zA-Z_-]+`. */
  const ShortcodeStyle: PlaceholderSyntax := Syntax(":", ':', CharClass(IsShortcodeChar))
}
