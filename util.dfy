/** `get_slice_by_char`: a piece of a string counted in characters rather than bytes. */
module Util {
  import opened Strings

  function Min(a: nat, b: nat): nat { if a <= b then a else b }

  /**
   * The function as written. `nth(start)` takes the first `start + 1`
   * characters; the second `nth(end - 1)` then counts on from there, so it
   * lands on character `start + end` and `end` acts as a length. For
   * `end == 0`, `end - 1` wraps to `usize::MAX` as a release build computes
   * it, so `nth` finds nothing and the rest of the string is returned; an
   * out-of-range `start` returns "" before the subtraction.
   */
  function GetSliceByCharAsWritten(s: string, start: nat, end: nat): (r: string)
    ensures start >= |s| ==> r == ""
    ensures start < |s| && end >= 1 ==> |r| == Min(start + end, |s|) - start && OccursAt(s, r, start)
    ensures start < |s| && end == 0 ==> r == s[start..]
  {
    if start >= |s| then ""
    else if end >= 1 && start + end < |s| then s[start..start + end]
    else s[start..]
  }

  /**
   * The slice the name and the `Range` argument promise: the characters from
   * `start` up to but not including `end`, cut at the end of the string; an
   * empty or out-of-range range gives the empty string.
   */
  function GetSliceByChar(s: string, start: nat, end: nat): (r: string)
    ensures start >= |s| || end <= start ==> r == ""
    ensures start < |s| && start < end ==> |r| == Min(end, |s|) - start && OccursAt(s, r, start)
  {
    if start >= |s| || end <= start then "" else s[start..Min(end, |s|)]
  }

  /** The two agree on every non-empty range starting at 0, which is how the debug output of articles, pages and files uses it. */
  lemma AgreeFromZero(s: string, end: nat)
    requires end >= 1
    ensures GetSliceByCharAsWritten(s, 0, end) == GetSliceByChar(s, 0, end)
  {
  }

  /**
   * A range starting after 0 takes `end` characters instead of `end - start`,
   * and an empty range from 0 takes the whole string.
   */
  lemma AsWrittenOvershoots()
    ensures GetSliceByCharAsWritten("ABCDEFG", 2, 4) == "CDEF"
    ensures GetSliceByChar("ABCDEFG", 2, 4) == "CD"
    ensures GetSliceByCharAsWritten("ABCDEFG", 0, 0) == "ABCDEFG"
    ensures GetSliceByChar("ABCDEFG", 0, 0) == ""
  {
    assert "ABCDEFG"[0..] == "ABCDEFG";
    assert "ABCDEFG"[2..6] == "CDEF";
    assert "ABCDEFG"[2..4] == "CD";
  }

  /** Adjacent ranges split the string: the piece before `k` and the piece from `k` make it up again. */
  lemma SliceSplit(s: string, k: nat)
    requires k <= |s|
    ensures GetSliceByChar(s, 0, k) + GetSliceByChar(s, k, |s|) == s
  {
    if k == |s| {
      assert GetSliceByChar(s, 0, k) == s[..|s|] == s;
    } else if k == 0 {
      assert GetSliceByChar(s, k, |s|) == s[0..|s|] == s;
    } else {
      assert s[0..k] + s[k..|s|] == s;
    }
  }

  /** The source's test cases, on both definitions. */
  lemma SliceExamples()
    ensures GetSliceByChar("ABCDEFG", 0, 3) == "ABC" && GetSliceByCharAsWritten("ABCDEFG", 0, 3) == "ABC"
    ensures GetSliceByChar("1234567890", 0, 4) == "1234" && GetSliceByCharAsWritten("1234567890", 0, 4) == "1234"
    ensures GetSliceByChar("こんにちは世界", 0, 6) == "こんにちは世"
    ensures GetSliceByChar("1234567890", 10, 15) == "" && GetSliceByCharAsWritten("1234567890", 10, 15) == ""
    ensures GetSliceByChar("1234567890", 5, 15) == "67890" && GetSliceByCharAsWritten("1234567890", 5, 15) == "67890"
  {
    assert "ABCDEFG"[0..3] == "ABC";
    assert "1234567890"[0..4] == "1234";
    assert "こんにちは世界"[0..6] == "こんにちは世";
    assert "1234567890"[5..10] == "67890";
    assert "1234567890"[5..] == "67890";
  }
}
