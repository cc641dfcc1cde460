/**
 * The control values the sub-parsers answer with: a `Next` that may replace
 * the event and may ask for following events to be ignored, merged from one
 * sub-parser to the next, or a `Break` that ends the chain at once.
 */
module Control {
  import opened Wrappers
  import opened Events

  newtype u8 = x: int | 0 <= x < 256

  /** `count - 1` on a `u8` as a release build computes it: 0 wraps to 255. */
  function Dec(n: u8): (r: u8)
    ensures n > 0 ==> r as int == n as int - 1
    ensures n == 0 ==> r == 255
  {
    if n == 0 then 255 else n - 1
  }

  datatype Ignore =
    | ForNext(count: u8)
    | ForNextIf(count: u8, pred: Event -> bool)

  datatype Next = Next(replacement: Option<Event>, ignore: Option<Ignore>)

  /** `Next::default()`: no replacement and no ignore. */
  const NoNext: Next := Next(None, None)

  /**
   * `Next::update_by`: merges the `Next` of a later sub-parser into the
   * accumulated one. Two ignores meeting here abort the process.
   */
  function UpdateBy(acc: Next, other: Next): (r: Outcome<Next>)
    ensures r.Panic? <==> acc.ignore.Some? && other.ignore.Some?
    ensures r.Done? ==> r.value.ignore == other.ignore
    ensures r.Done? && other.replacement.Some? ==> r.value.replacement == other.replacement
    ensures r.Done? && other.replacement.None? ==> r.value.replacement == acc.replacement
  {
    if other.ignore.Some? && acc.ignore.Some? then
      Panic("Multiple sub parser requested to ignore")
    else
      Done(Next(other.replacement.Or(acc.replacement), other.ignore))
  }

  /** `Next::next_event`: the replacement if there is one, else the original. */
  function NextEvent(n: Next, original: Event): (r: Event)
    ensures n.replacement.Some? ==> r == n.replacement.value
    ensures n.replacement.None? ==> r == original
  {
    n.replacement.GetOr(original)
  }

  /** Left-to-right merge of several `Next` values, starting from the default. */
  function MergeAll(ns: seq<Next>): Outcome<Next>
  {
    if |ns| == 0 then Done(NoNext)
    else
      match MergeAll(ns[..|ns| - 1])
      case Panic(m) => Panic(m)
      case Done(acc) => UpdateBy(acc, ns[|ns| - 1])
  }

  /** The replacement of the last value in `ns` that has one. */
  function LastReplacement(ns: seq<Next>): Option<Event>
  {
    if |ns| == 0 then None
    else ns[|ns| - 1].replacement.Or(LastReplacement(ns[..|ns| - 1]))
  }

  predicate AdjacentIgnores(ns: seq<Next>) {
    exists i :: 0 <= i < |ns| - 1 && ns[i].ignore.Some? && ns[i + 1].ignore.Some?
  }

  /**
   * A merge aborts exactly when two ADJACENT values both carry an ignore;
   * otherwise the last replacement wins and the ignore is the last value's
   * own, so an ignore followed by a value without one is dropped.
   */
  lemma {:induction false} MergeAllMeaning(ns: seq<Next>)
    ensures MergeAll(ns).Panic? <==> AdjacentIgnores(ns)
    ensures MergeAll(ns).Done? ==> MergeAll(ns).value.replacement == LastReplacement(ns)
    ensures MergeAll(ns).Done? && |ns| > 0 ==> MergeAll(ns).value.ignore == ns[|ns| - 1].ignore
    ensures MergeAll(ns).Done? && |ns| == 0 ==> MergeAll(ns).value == NoNext
  {
    if |ns| > 0 {
      MergeAllMeaning(ns[..|ns| - 1]);
      AdjacentIgnoresSnoc(ns);
    }
  }

  lemma AdjacentIgnoresSnoc(ns: seq<Next>)
    requires |ns| > 0
    ensures var init := ns[..|ns| - 1];
      AdjacentIgnores(ns) <==>
        AdjacentIgnores(init) || (|init| > 0 && init[|init| - 1].ignore.Some? && ns[|ns| - 1].ignore.Some?)
  {
    var init := ns[..|ns| - 1];
    if AdjacentIgnores(ns) {
      var i :| 0 <= i < |ns| - 1 && ns[i].ignore.Some? && ns[i + 1].ignore.Some?;
      if i < |ns| - 2 {
        assert init[i] == ns[i] && init[i + 1] == ns[i + 1];
      }
    }
    if AdjacentIgnores(init) {
      var i :| 0 <= i < |init| - 1 && init[i].ignore.Some? && init[i + 1].ignore.Some?;
      assert ns[i] == init[i] && ns[i + 1] == init[i + 1];
    }
  }

  /** An ignore requested earlier in the chain is lost when the next value has none. */
  lemma UpdateByDropsEarlierIgnore(acc: Next, other: Next)
    requires acc.ignore.Some? && other.ignore.None?
    ensures UpdateBy(acc, other).Done? && UpdateBy(acc, other).value.ignore.None?
  {
  }

  /**
   * `Ignore::next`: whether `e` is suppressed, and the ignore that stays
   * pending afterwards. After a `ForNextIf` the remainder is a plain
   * `ForNext`, so only the first event is tested against the predicate.
   */
  function IgnoreNext(ign: Ignore, e: Event): (bool, Option<Ignore>)
  {
    match ign
    case ForNext(c) =>
      if c == 0 then (false, None)
      else (true, if c == 1 then None else Some(ForNext(c - 1)))
    case ForNextIf(c, p) =>
      (p(e), if c == 1 then None else Some(ForNext(Dec(c))))
  }

  /** The suppression flags a pending ignore produces over a stream of events. */
  function Suppressed(ign: Option<Ignore>, es: seq<Event>): (r: seq<bool>)
    ensures |r| == |es|
    decreases |es|
  {
    if |es| == 0 then []
    else
      match ign
      case None => [false] + Suppressed(None, es[1..])
      case Some(i) =>
        var (s, rest) := IgnoreNext(i, es[0]);
        [s] + Suppressed(rest, es[1..])
  }

  lemma {:induction false} NothingSuppressed(es: seq<Event>)
    ensures forall k :: 0 <= k < |es| ==> !Suppressed(None, es)[k]
    ensures forall k :: 0 <= k < |es| ==> !Suppressed(Some(ForNext(0)), es)[k]
  {
    if |es| > 0 {
      NothingSuppressed(es[1..]);
    }
  }

  /** `ForNext(n)` suppresses exactly the next `n` events and no more. */
  lemma {:induction false} ForNextSuppressesExactly(n: u8, es: seq<Event>)
    ensures forall k :: 0 <= k < |es| ==> (Suppressed(Some(ForNext(n)), es)[k] <==> k < n as int)
    decreases n
  {
    if |es| > 0 {
      if n == 0 {
        NothingSuppressed(es);
      } else if n == 1 {
        NothingSuppressed(es[1..]);
      } else {
        ForNextSuppressesExactly(n - 1, es[1..]);
      }
    }
  }

  /**
   * `ForNextIf(n, p)` with `n >= 1` tests only the first event against `p`,
   * then suppresses the following `n - 1` unconditionally.
   */
  lemma ForNextIfSuppresses(n: u8, p: Event -> bool, es: seq<Event>)
    requires n >= 1 && |es| > 0
    ensures Suppressed(Some(ForNextIf(n, p)), es)[0] == p(es[0])
    ensures forall k :: 1 <= k < |es| ==> (Suppressed(Some(ForNextIf(n, p)), es)[k] <==> k < n as int)
  {
    if n == 1 {
      NothingSuppressed(es[1..]);
    } else {
      ForNextSuppressesExactly(n - 1, es[1..]);
    }
  }

  datatype BreakingEventProcess = Discard | UseThisInstead(event: Event)

  /** `EventProcessControl`: `ControlFlow<BreakingEventProcess, Next>`. */
  datatype EventProcessControl =
    | Continue(next: Next)
    | Break(process: BreakingEventProcess)

  function DiscardControl(): EventProcessControl { Break(Discard) }

  function UseThisInsteadControl(e: Event): EventProcessControl { Break(UseThisInstead(e)) }

  function UseHtml(html: string): EventProcessControl { UseThisInsteadControl(Html(html)) }

  function UseNext(): EventProcessControl { Continue(NoNext) }

  function UseNextWith(n: Next): EventProcessControl { Continue(n) }

  /**
   * What continuing means: after `use_next` the event goes on as it is, and
   * merged after an earlier value it keeps that value's replacement but
   * drops its ignore; `use_next_with(n)` merged into the default is `n`.
   */
  lemma ContinueControls(e: Event, acc: Next, n: Next)
    ensures UseNext().Continue? && NextEvent(UseNext().next, e) == e
    ensures UpdateBy(acc, UseNext().next) == Done(Next(acc.replacement, None))
    ensures UseNextWith(n).Continue? && UpdateBy(NoNext, UseNextWith(n).next) == Done(n)
    ensures NextEvent(UseNextWith(n).next, e) == NextEvent(n, e)
  {
  }
}
