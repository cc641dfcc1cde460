/**
 * Character-level helpers shared by the model: decimal and hexadecimal
 * rendering as Rust's `format!` does it, `usize::from_str`, zero padding,
 * Unicode whitespace, UTF-8 byte length and the lexicographic order Rust
 * uses on `str`.
 */
module Strings {
  import opened Wrappers

  /** The platform is taken to be 64-bit, so `usize::MAX` is 2^64 - 1. */
  const USIZE_MAX: nat := 0xFFFF_FFFF_FFFF_FFFF

  predicate IsDigit(c: char) { '0' <= c <= '9' }

  predicate AllDigits(s: string) { forall i :: 0 <= i < |s| ==> IsDigit(s[i]) }

  function DigitChar(d: nat): (c: char)
    requires d < 10
    ensures IsDigit(c) && c as int - '0' as int == d
  {
    ('0' as int + d) as char
  }

  /** Value of a run of decimal digits (most significant first). */
  function DigitsValue(s: string): nat
    requires AllDigits(s)
  {
    if |s| == 0 then 0 else 10 * DigitsValue(s[..|s| - 1]) + (s[|s| - 1] as int - '0' as int)
  }

  /** `n.to_string()` / `format!("{}", n)` for an unsigned integer. */
  function NatToString(n: nat): (s: string)
    ensures |s| >= 1 && AllDigits(s)
    ensures s[0] == '0' ==> n == 0
  {
    if n < 10 then [DigitChar(n)] else NatToString(n / 10) + [DigitChar(n % 10)]
  }

  lemma {:induction false} NatToStringValue(n: nat)
    ensures DigitsValue(NatToString(n)) == n
  {
    if n >= 10 {
      NatToStringValue(n / 10);
      var s := NatToString(n);
      assert s[..|s| - 1] == NatToString(n / 10);
    }
  }

  lemma {:induction false} NatToStringInjective(a: nat, b: nat)
    requires NatToString(a) == NatToString(b)
    ensures a == b
  {
    NatToStringValue(a);
    NatToStringValue(b);
  }

  /**
   * `s.parse::<usize>()`: an optional leading `+`, then at least one ASCII
   * digit and nothing else, and a value that fits in a `usize`.
   */
  function ParseUsize(s: string): Option<nat> {
    var digits := if |s| > 0 && s[0] == '+' then s[1..] else s;
    if |digits| == 0 || !AllDigits(digits) then None
    else if DigitsValue(digits) > USIZE_MAX then None
    else Some(DigitsValue(digits))
  }

  /** Rendering a `usize` and parsing it back gives the same number. */
  lemma ParseUsizeOfNatToString(n: nat)
    requires n <= USIZE_MAX
    ensures ParseUsize(NatToString(n)) == Some(n)
    ensures ParseUsize("+" + NatToString(n)) == Some(n)
  {
    NatToStringValue(n);
    var s := NatToString(n);
    assert ("+" + s)[1..] == s;
  }

  /** Whatever `usize::from_str` accepts is non-empty and made of digits after an optional `+`. */
  lemma ParseUsizeAccepts(s: string)
    requires ParseUsize(s).Some?
    ensures |s| > 0
    ensures s[0] == '+' || IsDigit(s[0])
    ensures forall i :: 1 <= i < |s| ==> IsDigit(s[i])
    ensures s != "+"
  {
  }

  /** `k` zero digits. */
  function Zeros(k: nat): (z: string)
    ensures |z| == k && forall i :: 0 <= i < k ==> z[i] == '0'
  {
    if k == 0 then [] else ['0'] + Zeros(k - 1)
  }

  /** `format!("{:0>w}", s)`: pad on the left with `0` up to `w` characters. */
  function PadZero(s: string, w: nat): (r: string)
    ensures |r| == if |s| >= w then |s| else w
    ensures r[|r| - |s|..] == s
    ensures forall i :: 0 <= i < |r| - |s| ==> r[i] == '0'
  {
    Zeros(if |s| >= w then 0 else w - |s|) + s
  }

  /** Zero padding keeps a run of digits a run of digits with the same value. */
  lemma PadZeroDigits(s: string, w: nat)
    requires AllDigits(s)
    ensures AllDigits(PadZero(s, w))
    ensures DigitsValue(PadZero(s, w)) == DigitsValue(s)
  {
    ZerosValue(if |s| >= w then 0 else w - |s|, s);
  }

  lemma {:induction false} ZerosValue(k: nat, s: string)
    requires AllDigits(s)
    ensures AllDigits(Zeros(k) + s) && DigitsValue(Zeros(k) + s) == DigitsValue(s)
  {
    if k > 0 {
      ZerosValue(k - 1, s);
      assert Zeros(k) + s == ['0'] + (Zeros(k - 1) + s);
      ZeroPrefixValue(Zeros(k - 1) + s);
    } else {
      assert Zeros(k) + s == s;
    }
  }

  /** A string at least as wide as the field is left as it is. */
  lemma PadZeroWide(s: string, w: nat)
    requires |s| >= w
    ensures PadZero(s, w) == s
  {
    assert Zeros(0) + s == s;
  }

  lemma {:induction false} ZeroPrefixValue(p: string)
    requires AllDigits(p)
    ensures AllDigits(['0'] + p) && DigitsValue(['0'] + p) == DigitsValue(p)
  {
    if |p| > 0 {
      var q := ['0'] + p;
      assert q[..|q| - 1] == ['0'] + p[..|p| - 1];
      ZeroPrefixValue(p[..|p| - 1]);
    }
  }

  function HexChar(d: nat): (c: char)
    requires d < 16
  {
    if d < 10 then DigitChar(d) else ('a' as int + (d - 10)) as char
  }

  predicate IsLowerHexChar(c: char) { IsDigit(c) || 'a' <= c <= 'f' }

  function HexValue(c: char): nat
    requires IsLowerHexChar(c)
  {
    if IsDigit(c) then c as int - '0' as int else c as int - 'a' as int + 10
  }

  function HexDigitsValue(s: string): nat
    requires forall i :: 0 <= i < |s| ==> IsLowerHexChar(s[i])
  {
    if |s| == 0 then 0 else 16 * HexDigitsValue(s[..|s| - 1]) + HexValue(s[|s| - 1])
  }

  /** `format!("{:x}", n)`: lower-case hexadecimal, no prefix, no leading zeros. */
  function LowerHex(n: nat): (s: string)
    ensures |s| >= 1 && forall i :: 0 <= i < |s| ==> IsLowerHexChar(s[i])
    ensures s[0] == '0' ==> n == 0
  {
    if n < 16 then [HexChar(n)] else LowerHex(n / 16) + [HexChar(n % 16)]
  }

  lemma {:induction false} LowerHexValue(n: nat)
    ensures HexDigitsValue(LowerHex(n)) == n
  {
    if n >= 16 {
      LowerHexValue(n / 16);
      var s := LowerHex(n);
      assert s[..|s| - 1] == LowerHex(n / 16);
    }
  }

  /** The position of the last `c` in `s`, if any (`rfind`). */
  function LastIndexOf(s: string, c: char): (r: Option<nat>)
    ensures r.Some? ==> r.value < |s| && s[r.value] == c && forall k :: r.value < k < |s| ==> s[k] != c
    ensures r.None? ==> forall k :: 0 <= k < |s| ==> s[k] != c
  {
    if |s| == 0 then None
    else if s[|s| - 1] == c then Some(|s| - 1)
    else LastIndexOf(s[..|s| - 1], c)
  }

  /** A `c` followed by text without `c` is the last one. */
  lemma {:induction false} LastIndexOfBefore(a: string, c: char, h: string)
    requires forall j :: 0 <= j < |h| ==> h[j] != c
    ensures LastIndexOf(a + [c] + h, c) == Some(|a|)
    decreases |h|
  {
    var s := a + [c] + h;
    if |h| == 0 {
      assert s == a + [c];
    } else {
      var h' := h[..|h| - 1];
      assert s[..|s| - 1] == a + [c] + h';
      assert s[|s| - 1] == h[|h| - 1];
      LastIndexOfBefore(a, c, h');
    }
  }

  /** Concatenation of a list of strings (`collect::<String>()`). */
  function Concat(parts: seq<string>): string {
    if |parts| == 0 then "" else Concat(parts[..|parts| - 1]) + parts[|parts| - 1]
  }

  lemma ConcatAppend(a: seq<string>, b: seq<string>)
    ensures Concat(a + b) == Concat(a) + Concat(b)
  {
    if |b| > 0 {
      assert (a + b)[..|a + b| - 1] == a + b[..|b| - 1];
      ConcatAppend(a, b[..|b| - 1]);
    } else {
      assert a + b == a;
    }
  }

  /** `t` occurs in `s` starting at index `i`. */
  predicate OccursAt(s: string, t: string, i: nat) {
    i + |t| <= |s| && s[i..i + |t|] == t
  }

  /** `t` occurs in `s` as a contiguous piece. */
  predicate Contains(s: string, t: string) {
    exists i: nat :: i <= |s| && OccursAt(s, t, i)
  }

  lemma ContainsPiece(a: string, t: string, b: string)
    ensures Contains(a + t + b, t)
  {
    assert OccursAt(a + t + b, t, |a|);
  }

  /** Each of the three fields of a format with four fixed pieces occurs in its output. */
  lemma {:induction false} ContainsFields(p0: string, a: string, p1: string, b: string, p2: string, c: string, p3: string)
    ensures Contains(p0 + a + p1 + b + p2 + c + p3, a)
    ensures Contains(p0 + a + p1 + b + p2 + c + p3, b)
    ensures Contains(p0 + a + p1 + b + p2 + c + p3, c)
  {
    var r := p0 + a + p1 + b + p2 + c + p3;
    assert r == p0 + a + (p1 + b + p2 + c + p3);
    ContainsPiece(p0, a, p1 + b + p2 + c + p3);
    assert r == (p0 + a + p1) + b + (p2 + c + p3);
    ContainsPiece(p0 + a + p1, b, p2 + c + p3);
    assert r == (p0 + a + p1 + b + p2) + c + p3;
    ContainsPiece(p0 + a + p1 + b + p2, c, p3);
  }

  lemma ContainsTransitive(r: string, m: string, t: string)
    requires Contains(r, m) && Contains(m, t)
    ensures Contains(r, t)
  {
    var i: nat :| i <= |r| && OccursAt(r, m, i);
    var j: nat :| j <= |m| && OccursAt(m, t, j);
    assert r[i..i + |m|] == m;
    forall k | 0 <= k < |t|
      ensures r[i + j..i + j + |t|][k] == t[k]
    {
      assert r[i + j + k] == r[i..i + |m|][j + k] == m[j + k];
      assert m[j..j + |t|][k] == m[j + k];
    }
    assert r[i + j..i + j + |t|] == t;
    assert OccursAt(r, t, i + j);
  }

  /**
   * In the output of a format with four fixed pieces, the first piece and
   * the first field can be read back at their offsets, followed by the
   * first character of the second piece.
   */
  lemma {:induction false} FieldOffsets(p0: string, a: string, p1: string, b: string, p2: string, c: string, p3: string)
    requires |p1| > 0
    ensures var r := p0 + a + p1 + b + p2 + c + p3;
      r[..|p0|] == p0 && r[|p0|..|p0| + |a|] == a && r[|p0| + |a|] == p1[0]
  {
    var r := p0 + a + p1 + b + p2 + c + p3;
    assert r == p0 + a + (p1 + b + p2 + c + p3);
  }

  /** `items.iter().map(f).collect::<String>()`. */
  function ConcatMap<T>(items: seq<T>, f: T -> string): string {
    if |items| == 0 then "" else ConcatMap(items[..|items| - 1], f) + f(items[|items| - 1])
  }

  lemma {:induction false} ConcatMapAppend<T>(a: seq<T>, b: seq<T>, f: T -> string)
    ensures ConcatMap(a + b, f) == ConcatMap(a, f) + ConcatMap(b, f)
    decreases |b|
  {
    if |b| > 0 {
      var b' := b[..|b| - 1];
      assert (a + b)[..|a + b| - 1] == a + b';
      ConcatMapAppend(a, b', f);
    } else {
      assert a + b == a;
    }
  }

  /** Every item's text appears in the concatenation. */
  lemma ConcatMapContains<T>(items: seq<T>, k: nat, f: T -> string)
    requires k < |items|
    ensures Contains(ConcatMap(items, f), f(items[k]))
  {
    var pre, x, post := items[..k], items[k], items[k + 1..];
    assert items == pre + [x] + post;
    ConcatMapAppend(pre + [x], post, f);
    ConcatMapAppend(pre, [x], f);
    assert [x][..0] == [];
    assert ConcatMap([x], f) == f(x);
    var a, b := ConcatMap(pre, f), ConcatMap(post, f);
    assert ConcatMap(items, f) == a + f(x) + b;
    ContainsPiece(a, f(x), b);
  }

  /** `parts.join(sep)`. */
  function Join(parts: seq<string>, sep: string): string {
    if |parts| == 0 then ""
    else if |parts| == 1 then parts[0]
    else Join(parts[..|parts| - 1], sep) + sep + parts[|parts| - 1]
  }

  /**
   * The names in `names` not in `known`, each once, in order of first
   * occurrence (what a cache that starts out holding `known` must look up,
   * or the order in which names are first seen).
   */
  function NewNames(names: seq<string>, known: set<string>): seq<string> {
    if |names| == 0 then []
    else
      var init := names[..|names| - 1];
      var n := names[|names| - 1];
      NewNames(init, known) + (if n in known || n in init then [] else [n])
  }

  /** Each new name occurs exactly once, and no known name at all. */
  lemma {:induction false} NewNamesMeaning(names: seq<string>, known: set<string>)
    ensures forall n :: n in NewNames(names, known) <==> n in names && n !in known
    ensures forall i, j :: 0 <= i < j < |NewNames(names, known)| ==> NewNames(names, known)[i] != NewNames(names, known)[j]
  {
    if |names| > 0 {
      var init := names[..|names| - 1];
      NewNamesMeaning(init, known);
      assert names == init + [names[|names| - 1]];
    }
  }

  /** One more name is new only when neither known nor seen before. */
  lemma NewNamesStep(ns: seq<string>, n: string, known: set<string>)
    ensures n in known || n in ns ==> NewNames(ns + [n], known) == NewNames(ns, known)
    ensures !(n in known || n in ns) ==> NewNames(ns + [n], known) == NewNames(ns, known) + [n]
  {
    assert (ns + [n])[..|ns|] == ns;
    assert NewNames(ns, known) + [] == NewNames(ns, known);
  }

  /** Unicode `White_Space`, the class `\s` of Rust's `regex` crate. */
  predicate IsWhitespace(c: char) {
    var n := c as int;
    (0x09 <= n <= 0x0D) || n == 0x20 || n == 0x85 || n == 0xA0 || n == 0x1680
    || (0x2000 <= n <= 0x200A) || n == 0x2028 || n == 0x2029 || n == 0x202F
    || n == 0x205F || n == 0x3000
  }

  /**
   * Where the text `str::trim` keeps starts and ends: everything before and
   * after is whitespace, and the kept text, when not empty, starts and ends
   * with a non-whitespace character.
   */
  function TrimBounds(s: string): (b: (nat, nat))
    ensures b.0 <= b.1 <= |s|
    ensures b.0 == b.1 || (!IsWhitespace(s[b.0]) && !IsWhitespace(s[b.1 - 1]))
    ensures forall k :: 0 <= k < b.0 ==> IsWhitespace(s[k])
    ensures forall k :: b.1 <= k < |s| ==> IsWhitespace(s[k])
  {
    if |s| == 0 then (0, 0)
    else if IsWhitespace(s[0]) then
      var b := TrimBounds(s[1..]);
      (b.0 + 1, b.1 + 1)
    else if IsWhitespace(s[|s| - 1]) then TrimBounds(s[..|s| - 1])
    else (0, |s|)
  }

  /** Leading and trailing whitespace removed. */
  function Trim(s: string): (r: string)
    ensures |r| == 0 || (!IsWhitespace(r[0]) && !IsWhitespace(r[|r| - 1]))
    ensures exists i, j :: 0 <= i <= j <= |s| && r == s[i..j]
  {
    var b := TrimBounds(s);
    assert 0 <= b.0 <= b.1 <= |s| && s[b.0..b.1] == s[b.0..b.1];
    s[b.0..b.1]
  }

  /** Number of bytes of the UTF-8 encoding of `c`. */
  function Utf8Len(c: char): (n: nat)
    ensures 1 <= n <= 4
  {
    if c as int < 0x80 then 1 else if c as int < 0x800 then 2 else if c as int < 0x1_0000 then 3 else 4
  }

  /** `s.len()` of a Rust `str`: its length in UTF-8 bytes. */
  function ByteLen(s: string): (n: nat)
    ensures |s| <= n <= 4 * |s|
  {
    if |s| == 0 then 0 else ByteLen(s[..|s| - 1]) + Utf8Len(s[|s| - 1])
  }

  lemma ByteLenAppend(a: string, b: string)
    ensures ByteLen(a + b) == ByteLen(a) + ByteLen(b)
  {
    if |b| > 0 {
      assert (a + b)[..|a + b| - 1] == a + b[..|b| - 1];
      ByteLenAppend(a, b[..|b| - 1]);
    } else {
      assert a + b == a;
    }
  }

  /**
   * The order of Rust's `str` (bytewise on UTF-8, which is the same as
   * comparing code points one by one): a proper prefix is smaller, otherwise
   * the first differing character decides.
   */
  predicate StrLess(a: string, b: string) {
    if |a| == 0 then |b| > 0
    else if |b| == 0 then false
    else if a[0] != b[0] then a[0] < b[0]
    else StrLess(a[1..], b[1..])
  }

  lemma {:induction false} StrLessIrreflexive(a: string)
    ensures !StrLess(a, a)
  {
    if |a| > 0 { StrLessIrreflexive(a[1..]); }
  }

  lemma {:induction false} StrLessTransitive(a: string, b: string, c: string)
    requires StrLess(a, b) && StrLess(b, c)
    ensures StrLess(a, c)
  {
    if |a| > 0 && |b| > 0 && |c| > 0 && a[0] == b[0] && b[0] == c[0] {
      StrLessTransitive(a[1..], b[1..], c[1..]);
    }
  }

  lemma {:induction false} StrLessTotal(a: string, b: string)
    ensures a == b || StrLess(a, b) || StrLess(b, a)
  {
    if |a| > 0 && |b| > 0 && a[0] == b[0] {
      StrLessTotal(a[1..], b[1..]);
      if a[1..] == b[1..] {
        assert a == [a[0]] + a[1..] && b == [b[0]] + b[1..];
      }
    }
  }
}
