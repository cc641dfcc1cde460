/**
 * Emoji shortcodes (`:name:`): the asset name built from an emoji's
 * codepoints, the tag it becomes, and the cached replacement of every
 * shortcode in a text. The emoji data set is a map from shortcode to the
 * emoji's characters.
 */
module Emoji {
  import opened Wrappers
  import opened Strings
  import opened Template

  /** `emojis::get_by_shortcode`, as a lookup table. */
  type Dataset = map<string, string>

  /** The placeholder `Placeholder::from_strs(":", ":", "[a-zA-Z_-]+")` builds. */
  const Shortcode: Placeholder := Placeholder(Regex(ShortcodeStyle, [None, Some(CaptureGroup)]))

  /** Building the shortcode placeholder cannot fail, so its `unwrap` never panics. */
  lemma ShortcodeBuilds()
    ensures FromStrs(":", ':', CharClass(IsShortcodeChar)) == Ok(Shortcode)
  {
    assert ShortcodeStyle == Syntax(":", ':', CharClass(IsShortcodeChar));
  }

  // ---------------------------------------------------------------------
  // Codepoints
  // ---------------------------------------------------------------------

  /** Every character as lower-case hexadecimal, joined by `-`. */
  function Codepoints(e: string): string {
    if |e| == 0 then ""
    else if |e| == 1 then LowerHex(e[0] as int)
    else Codepoints(e[..|e| - 1]) + "-" + LowerHex(e[|e| - 1] as int)
  }

  predicate IsScalar(v: nat) { v < 0xD800 || (0xE000 <= v < 0x11_0000) }

  predicate IsHexString(h: string) { forall k :: 0 <= k < |h| ==> IsLowerHexChar(h[k]) }

  /** One codepoint written in lower-case hexadecimal, read back. */
  function DecodeOne(h: string): Option<char> {
    if |h| > 0 && IsHexString(h) && IsScalar(HexDigitsValue(h)) then Some(HexDigitsValue(h) as char)
    else None
  }

  /** The characters a `-`-separated list of hexadecimal codepoints names. */
  function DecodeCodepoints(s: string): Option<string> {
    match LastIndexOf(s, '-')
    case None => (match DecodeOne(s) case None => None case Some(c) => Some([c]))
    case Some(k) =>
      match DecodeCodepoints(s[..k])
      case None => None
      case Some(init) =>
        match DecodeOne(s[k + 1..])
        case None => None
        case Some(c) => Some(init + [c])
  }

  lemma DecodeOneHex(c: char)
    ensures DecodeOne(LowerHex(c as int)) == Some(c)
  {
    LowerHexValue(c as int);
  }

  /** The asset name determines the emoji: reading the codepoints back gives it again. */
  lemma {:induction false} CodepointsRoundTrip(e: string)
    requires |e| > 0
    ensures DecodeCodepoints(Codepoints(e)) == Some(e)
  {
    var h := LowerHex(e[|e| - 1] as int);
    DecodeOneHex(e[|e| - 1]);
    if |e| == 1 {
      assert LastIndexOf(h, '-') == None;
      assert [e[0]] == e;
    } else {
      var init := e[..|e| - 1];
      var a := Codepoints(init);
      var s := a + "-" + h;
      CodepointsRoundTrip(init);
      LastIndexIs(a, h);
      assert s[..|a|] == a;
      assert s[|a| + 1..] == h;
      assert init + [e[|e| - 1]] == e;
    }
  }

  lemma LastIndexIs(a: string, h: string)
    requires IsHexString(h)
    ensures LastIndexOf(a + "-" + h, '-') == Some(|a|)
  {
    forall j | 0 <= j < |h| ensures h[j] != '-' {
      HexIsNotDash(h[j]);
    }
    LastIndexOfBefore(a, '-', h);
  }

  lemma HexIsNotDash(c: char)
    requires IsLowerHexChar(c)
    ensures c != '-'
  {
  }

  // ---------------------------------------------------------------------
  // Tags
  // ---------------------------------------------------------------------

  /** Where the image of an emoji is served from. */
  function AssetUrl(e: string): string {
    "https://cdn.jsdelivr.net/gh/jdecked/twemoji@latest/assets/svg/" + Codepoints(e) + ".svg"
  }

  /** `emoji_to_html_tag` of the emoji module: an image with the asset as source and the emoji as text. */
  function EmojiToHtmlTag(e: string): (r: string)
    ensures StartsWithAt(r, 0, "<img src=\"" + AssetUrl(e) + "\"")
    ensures |r| >= |e| + 23 && r[|r| - |e| - 23..] == "alt=\"" + e + "\" draggable=false>"
  {
    "<img src=\"" + AssetUrl(e) + "\" alt=\"" + e + "\" draggable=false>"
  }

  /** What an unknown shortcode is replaced by: a comment, then the shortcode as written. */
  function Unresolved(shortcode: string): string {
    "<!-- Unresolved emoji --> :" + shortcode + ":"
  }

  /** The marker keeps the shortcode as written, between the two colons, so no name is lost. */
  lemma UnresolvedKeepsShortcode(shortcode: string)
    ensures var u := Unresolved(shortcode);
      |u| == |shortcode| + 28 && u[27..|u| - 1] == shortcode && u[26] == ':' && u[|u| - 1] == ':'
  {
  }

  /**
   * The replacement for one shortcode: the tag of its emoji when the data set
   * knows it, the unresolved marker otherwise.
   */
  function Resolve(ds: Dataset, tag: string -> string, shortcode: string): string {
    if shortcode in ds then tag(ds[shortcode]) else Unresolved(shortcode)
  }

  function Resolver(ds: Dataset, tag: string -> string): string -> string {
    n => Resolve(ds, tag, n)
  }

  // ---------------------------------------------------------------------
  // The cached fill
  // ---------------------------------------------------------------------

  /** A cache is sound when every entry is what resolving its key gives. */
  predicate CacheAgrees(ds: Dataset, tag: string -> string, cache: map<string, string>) {
    forall n :: n in cache ==> cache[n] == Resolve(ds, tag, n)
  }

  /** What one more piece adds to the text and to the names. */
  lemma PieceStep(pieces: seq<Piece>, i: nat, f: string -> string)
    requires i < |pieces|
    ensures FillPieces(pieces[..i + 1], f) == FillPieces(pieces[..i], f) +
      (match pieces[i] case Literal(s) => s case Hole(n, _) => f(n))
    ensures pieces[i].Literal? ==> Names(pieces[..i + 1]) == Names(pieces[..i])
    ensures pieces[i].Hole? ==> Names(pieces[..i + 1]) == Names(pieces[..i]) + [pieces[i].name]
  {
    assert pieces[..i + 1] == pieces[..i] + [pieces[i]];
    NamesSnoc(pieces[..i], pieces[i]);
    FillPiecesSnoc(pieces[..i], pieces[i], f);
    assert FillPieces([pieces[i]], f) == (match pieces[i] case Literal(s) => s case Hole(n, _) => f(n)) + FillPieces([], f);
    if pieces[i].Hole? {
      assert Names([pieces[i]]) == [pieces[i].name];
    } else {
      assert Names([pieces[i]]) == [];
      assert Names(pieces[..i]) + [] == Names(pieces[..i]);
    }
  }

  /**
   * Every shortcode in `text` replaced through a cache: a shortcode already
   * in the cache takes the cached text, any other one is looked up, and the
   * result is cached. Returns the text, the new cache and the shortcodes
   * that were looked up, in order.
   */
  method FillCached(ds: Dataset, tag: string -> string, text: string, cache: map<string, string>)
    returns (r: string, cache': map<string, string>, looked: seq<string>)
    requires CacheAgrees(ds, tag, cache)
    ensures r == Fill(Shortcode, text, Resolver(ds, tag))
    ensures CacheAgrees(ds, tag, cache')
    ensures forall m :: m in cache' <==> m in cache || m in ParseUsed(Shortcode, text)
    ensures looked == NewNames(ParseUsed(Shortcode, text), cache.Keys)
  {
    r, cache', looked := FillPiecesCached(ds, tag, Scan(ShortcodeStyle, text), cache);
  }

  /** The loop of `FillCached`, over the pieces the scanner splits the text into. */
  method FillPiecesCached(ds: Dataset, tag: string -> string, pieces: seq<Piece>, cache: map<string, string>)
    returns (r: string, cache': map<string, string>, looked: seq<string>)
    requires CacheAgrees(ds, tag, cache)
    ensures r == FillPieces(pieces, Resolver(ds, tag))
    ensures CacheAgrees(ds, tag, cache')
    ensures forall m :: m in cache' <==> m in cache || m in Names(pieces)
    ensures looked == NewNames(Names(pieces), cache.Keys)
  {
    var f := Resolver(ds, tag);
    r, cache', looked := "", cache, [];
    var i := 0;
    ghost var ns: seq<string> := [];
    while i < |pieces|
      invariant 0 <= i <= |pieces|
      invariant ns == Names(pieces[..i])
      invariant r == FillPieces(pieces[..i], f)
      invariant CacheAgrees(ds, tag, cache')
      invariant forall m :: m in cache' <==> m in cache || m in ns
      invariant looked == NewNames(ns, cache.Keys)
    {
      PieceStep(pieces, i, f);
      var q := pieces[i];
      if q.Literal? {
        r := r + q.text;
      } else {
        var n := q.name;
        NewNamesStep(ns, n, cache.Keys);
        var v, c, hit := LookupCached(ds, tag, n, cache');
        if !hit {
          looked := looked + [n];
        }
        r, cache' := r + v, c;
      }
      ns := Names(pieces[..i + 1]);
      i := i + 1;
    }
    assert pieces[..i] == pieces;
  }

  /**
   * One shortcode through the cache: the cached text when there is one
   * (`hit`), else the looked-up text, which is then cached.
   */
  method LookupCached(ds: Dataset, tag: string -> string, n: string, cache: map<string, string>)
    returns (v: string, cache': map<string, string>, hit: bool)
    requires CacheAgrees(ds, tag, cache)
    ensures v == Resolve(ds, tag, n)
    ensures hit <==> n in cache
    ensures CacheAgrees(ds, tag, cache')
    ensures forall m :: m in cache' <==> m in cache || m == n
  {
    if n in cache {
      v, cache', hit := cache[n], cache, true;
    } else {
      v := Resolve(ds, tag, n);
      cache', hit := cache[n := v], false;
    }
  }

  /**
   * `replace_emoji_from_shortcode`: every shortcode replaced, with a cache
   * that lives for this one call. Also returns the shortcodes looked up in
   * the data set, each distinct one once.
   */
  method ReplaceEmojiFromShortcode(ds: Dataset, content: string) returns (r: string, looked: seq<string>)
    ensures r == Fill(Shortcode, content, Resolver(ds, EmojiToHtmlTag))
    ensures looked == NewNames(ParseUsed(Shortcode, content), {})
  {
    var empty: map<string, string> := map[];
    assert empty.Keys == {};
    var cache;
    r, cache, looked := FillCached(ds, EmojiToHtmlTag, content, empty);
  }

  /** The filler always gives a value, so a partial fill with it never reports a failure. */
  lemma ReplaceNeverFails(ds: Dataset, tag: string -> string, content: string)
    ensures Failing(ParseUsed(Shortcode, content), n => Some(Resolve(ds, tag, n))) == []
  {
    FailingEmpty(ParseUsed(Shortcode, content), n => Some(Resolve(ds, tag, n)));
  }
}
