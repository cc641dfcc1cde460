/**
 * The footnote sub-parser: references are numbered by the first occurrence
 * of their id and counted; definitions are buffered, removed from the
 * stream and emitted at the end as one list, referenced definitions first
 * in reference order, then the others in definition order.
 */
module Footnote {
  import opened Wrappers
  import opened Strings
  import opened Events
  import opened Control
  import opened Sorting

  datatype FootNoteDefinition = FootNoteDefinition(id: string, events: seq<Event>)

  datatype FootNoteRef = FootNoteRef(id: string, refCount: nat)

  function RefIds(refs: seq<FootNoteRef>): (ids: seq<string>)
    ensures |ids| == |refs|
  {
    seq(|refs|, k requires 0 <= k < |refs| => refs[k].id)
  }

  // ---------------------------------------------------------------------
  // References
  // ---------------------------------------------------------------------

  /** `iter().position(|refer| refer.id == id)`: the first entry for `id`. */
  function Position(refs: seq<FootNoteRef>, id: string): (r: Option<nat>)
    ensures r.Some? ==> r.value < |refs| && refs[r.value].id == id
    ensures r.Some? ==> forall k :: 0 <= k < r.value ==> refs[k].id != id
    ensures r.None? ==> forall k :: 0 <= k < |refs| ==> refs[k].id != id
  {
    if |refs| == 0 then None
    else
      match Position(refs[..|refs| - 1], id)
      case Some(k) => Some(k)
      case None => if refs[|refs| - 1].id == id then Some(|refs| - 1) else None
  }

  /**
   * `add_footnote_reference` on the list of references: the entry of `id`
   * (appended with a zero count when new) has its count raised by one. Gives
   * the new list and the entry's index, the reference's ordinal.
   */
  function AddReference(refs: seq<FootNoteRef>, id: string): (r: (seq<FootNoteRef>, nat))
    ensures r.1 < |r.0| && r.0[r.1].id == id
    ensures Position(refs, id).Some? ==>
      && r.1 == Position(refs, id).value
      && |r.0| == |refs|
      && r.0[r.1].refCount == refs[r.1].refCount + 1
      && forall k :: 0 <= k < |refs| && k != r.1 ==> r.0[k] == refs[k]
    ensures Position(refs, id).None? ==> r.1 == |refs| && r.0 == refs + [FootNoteRef(id, 1)]
  {
    match Position(refs, id)
    case Some(k) => (refs[k := FootNoteRef(id, refs[k].refCount + 1)], k)
    case None => (refs + [FootNoteRef(id, 1)], |refs|)
  }

  /** The references after counting `ids` in order, starting from none. */
  function RefsAfter(ids: seq<string>): seq<FootNoteRef> {
    if |ids| == 0 then [] else AddReference(RefsAfter(ids[..|ids| - 1]), ids[|ids| - 1]).0
  }

  /** After counting `ids` there is one entry per distinct id, in order of first occurrence. */
  lemma {:induction false} RefIdsAfter(ids: seq<string>)
    ensures RefIds(RefsAfter(ids)) == NewNames(ids, {})
  {
    if |ids| > 0 {
      var init := ids[..|ids| - 1];
      var id := ids[|ids| - 1];
      var refs := RefsAfter(init);
      assert ids == init + [id];
      assert RefsAfter(ids) == AddReference(refs, id).0;
      RefIdsAfter(init);
      NewNamesMeaning(init, {});
      NewNamesStep(init, id, {});
      RefIdsAdd(refs, id);
    }
  }

  /** Counting a known id keeps the ids; a new one is appended. */
  lemma RefIdsAdd(refs: seq<FootNoteRef>, id: string)
    ensures id in RefIds(refs) ==> RefIds(AddReference(refs, id).0) == RefIds(refs)
    ensures id !in RefIds(refs) ==> RefIds(AddReference(refs, id).0) == RefIds(refs) + [id]
  {
    var r := AddReference(refs, id);
    match Position(refs, id)
    case Some(k) =>
      assert RefIds(refs)[k] == id;
      assert RefIds(r.0) == RefIds(refs);
    case None =>
      assert id !in RefIds(refs) by {
        forall k | 0 <= k < |refs| ensures RefIds(refs)[k] != id {
        }
      }
      assert RefIds(r.0) == RefIds(refs) + [id];
  }

  /** After counting `ids`, each count is the number of occurrences of its id, so at least one. */
  lemma {:induction false} RefCountsAfter(ids: seq<string>)
    ensures forall k :: 0 <= k < |RefsAfter(ids)| ==> RefsAfter(ids)[k].refCount == multiset(ids)[RefsAfter(ids)[k].id]
  {
    if |ids| > 0 {
      var init := ids[..|ids| - 1];
      var id := ids[|ids| - 1];
      var refs := RefsAfter(init);
      var r := AddReference(refs, id);
      assert ids == init + [id];
      assert multiset(ids) == multiset(init) + multiset{id};
      assert RefsAfter(ids) == r.0;
      RefCountsAfter(init);
      RefIdsAfter(init);
      NewNamesMeaning(init, {});
      forall k | 0 <= k < |r.0| ensures r.0[k].refCount == multiset(ids)[r.0[k].id] {
        if k == r.1 {
          if Position(refs, id).None? {
            assert id !in init;
          }
        } else {
          assert k < |refs| && r.0[k] == refs[k];
          assert RefIds(refs)[k] == refs[k].id;
          if Position(refs, id).Some? {
            assert RefIds(refs)[r.1] == id;
          }
        }
      }
    }
  }

  /** Every count is at least one and no id has two entries. */
  lemma RefsAfterDistinct(ids: seq<string>)
    ensures forall k :: 0 <= k < |RefsAfter(ids)| ==> RefsAfter(ids)[k].refCount >= 1
    ensures forall i, j :: 0 <= i < j < |RefsAfter(ids)| ==> RefsAfter(ids)[i].id != RefsAfter(ids)[j].id
  {
    var refs := RefsAfter(ids);
    RefIdsAfter(ids);
    RefCountsAfter(ids);
    NewNamesMeaning(ids, {});
    forall k | 0 <= k < |refs| ensures refs[k].refCount >= 1 {
      assert RefIds(refs)[k] == refs[k].id;
      assert refs[k].id in ids;
    }
    forall i, j | 0 <= i < j < |refs| ensures refs[i].id != refs[j].id {
      assert RefIds(refs)[i] == refs[i].id && RefIds(refs)[j] == refs[j].id;
    }
  }

  /** The anchor a reference leaves behind, and the target of the back-links to it. */
  function AnchorId(id: string, refCount: nat): string {
    "fnref_" + id + "_" + NatToString(refCount)
  }

  /** The HTML a reference becomes: its anchor, then its ordinal (from one) linking to the definition. */
  function ReferenceHtml(id: string, refCount: nat, index: nat): string {
    "<a id=\"" + AnchorId(id, refCount) + "\" class=\"fnref-anchor\"></a><sup><a href=\"#fn_" + id + "\">#"
      + NatToString(index + 1) + "</a></sup>"
  }

  /**
   * The `j`-th counted reference: its ordinal is the place of its id among
   * the ids in order of first occurrence, and its anchor carries the number
   * of references to that id so far, itself included.
   */
  lemma ReferenceNumbering(ids: seq<string>, j: nat)
    requires j < |ids|
    ensures var r := AddReference(RefsAfter(ids[..j]), ids[j]);
      && r.1 < |NewNames(ids[..j + 1], {})|
      && NewNames(ids[..j + 1], {})[r.1] == ids[j]
      && r.0[r.1].refCount == multiset(ids[..j + 1])[ids[j]]
  {
    var r := AddReference(RefsAfter(ids[..j]), ids[j]);
    assert ids[..j + 1][..j] == ids[..j];
    assert RefsAfter(ids[..j + 1]) == r.0;
    RefIdsAfter(ids[..j + 1]);
    RefCountsAfter(ids[..j + 1]);
    assert RefIds(r.0)[r.1] == ids[j];
  }

  // ---------------------------------------------------------------------
  // Receiving events
  // ---------------------------------------------------------------------

  datatype FootnoteState = FootnoteState(
    footnotes: seq<FootNoteDefinition>,
    refs: seq<FootNoteRef>,
    building: Option<FootNoteDefinition>)

  /** `FootnoteSubParser::default()`. */
  const Initial: FootnoteState := FootnoteState([], [], None)

  predicate IsDefinitionStart(e: Event) { e.Start? && e.tag.FootnoteDefinition? }

  const DefinitionEnd: Event := End(FootnoteDefinitionEnd)

  /**
   * `process_definition_body`: the end tag closes the definition being built
   * and files it; any other event joins its body.
   */
  function DefinitionBodyStep(s: FootnoteState, e: Event): (r: FootnoteState)
    requires s.building.Some?
    ensures r.refs == s.refs
    ensures e == DefinitionEnd ==> r.building.None? && r.footnotes == s.footnotes + [s.building.value]
    ensures e != DefinitionEnd ==>
      r.footnotes == s.footnotes && r.building == Some(FootNoteDefinition(s.building.value.id, s.building.value.events + [e]))
  {
    var b := s.building.value;
    if e == DefinitionEnd then FootnoteState(s.footnotes + [b], s.refs, None)
    else FootnoteState(s.footnotes, s.refs, Some(FootNoteDefinition(b.id, b.events + [e])))
  }

  /** `FootnoteSubParser::receive_event` on a state, as a value. */
  function FootnoteStep(s: FootnoteState, e: Event): (r: (FootnoteState, EventProcessControl))
    ensures s.building.Some? ==> r == (DefinitionBodyStep(s, e), DiscardControl())
    ensures s.building.None? && IsDefinitionStart(e) ==>
      r == (FootnoteState(s.footnotes, s.refs, Some(FootNoteDefinition(e.tag.id, []))), DiscardControl())
    ensures s.building.None? && e.FootnoteReference? ==>
      var a := AddReference(s.refs, e.id);
      r == (FootnoteState(s.footnotes, a.0, None), UseHtml(ReferenceHtml(e.id, a.0[a.1].refCount, a.1)))
    ensures s.building.None? && !IsDefinitionStart(e) && !e.FootnoteReference? ==> r == (s, UseNext())
  {
    if s.building.Some? then (DefinitionBodyStep(s, e), DiscardControl())
    else if IsDefinitionStart(e) then
      (FootnoteState(s.footnotes, s.refs, Some(FootNoteDefinition(e.tag.id, []))), DiscardControl())
    else if e.FootnoteReference? then
      var a := AddReference(s.refs, e.id);
      (FootnoteState(s.footnotes, a.0, None), UseHtml(ReferenceHtml(e.id, a.0[a.1].refCount, a.1)))
    else (s, UseNext())
  }

  /** The sub-parser fed a stream of events: the final state and every answer. */
  function FootnoteRun(s: FootnoteState, es: seq<Event>): (r: (FootnoteState, seq<EventProcessControl>))
    ensures |r.1| == |es|
  {
    if |es| == 0 then (s, [])
    else
      var acc := FootnoteRun(s, es[..|es| - 1]);
      var step := FootnoteStep(acc.0, es[|es| - 1]);
      (step.0, acc.1 + [step.1])
  }

  /** Whether a definition is open after `es`: opened by a start tag, closed by the next end tag. */
  function Building(es: seq<Event>): bool {
    if |es| == 0 then false
    else if Building(es[..|es| - 1]) then es[|es| - 1] != DefinitionEnd
    else IsDefinitionStart(es[|es| - 1])
  }

  /** The ids of the references outside definitions, in order. */
  function CountedRefs(es: seq<Event>): seq<string> {
    if |es| == 0 then []
    else
      var init := es[..|es| - 1];
      var e := es[|es| - 1];
      CountedRefs(init) + (if !Building(init) && e.FootnoteReference? then [e.id] else [])
  }

  /**
   * From the initial state, a definition is being built exactly when one is
   * open, and the references are those outside definitions, counted in order.
   */
  lemma {:induction false} FootnoteRunState(es: seq<Event>)
    ensures FootnoteRun(Initial, es).0.building.Some? == Building(es)
    ensures FootnoteRun(Initial, es).0.refs == RefsAfter(CountedRefs(es))
  {
    if |es| > 0 {
      var init := es[..|es| - 1];
      var e := es[|es| - 1];
      FootnoteRunState(init);
      var ids := CountedRefs(init);
      if !Building(init) && e.FootnoteReference? {
        assert CountedRefs(es) == ids + [e.id];
        assert (ids + [e.id])[..|ids|] == ids;
      } else {
        assert CountedRefs(es) == ids + [] == ids;
      }
    }
  }

  /** The answer to the `k`-th event is the step from the state the events before it lead to. */
  lemma {:induction false} FootnoteRunAt(s: FootnoteState, es: seq<Event>, k: nat)
    requires k < |es|
    ensures FootnoteRun(s, es).1[k] == FootnoteStep(FootnoteRun(s, es[..k]).0, es[k]).1
  {
    var init := es[..|es| - 1];
    if k < |init| {
      FootnoteRunAt(s, init, k);
      assert init[..k] == es[..k];
    } else {
      assert init == es[..k];
    }
  }

  /**
   * Every event inside a definition, and every start tag of one, is removed;
   * every reference outside becomes HTML; every other event goes on.
   */
  lemma FootnoteRunAnswers(es: seq<Event>)
    ensures var cs := FootnoteRun(Initial, es).1;
      forall k :: 0 <= k < |es| ==>
        && (Building(es[..k]) || IsDefinitionStart(es[k]) <==> cs[k] == DiscardControl())
        && (!Building(es[..k]) && es[k].FootnoteReference? <==> cs[k].Break? && cs[k].process.UseThisInstead?)
        && (cs[k].Continue? <==> cs[k] == UseNext())
  {
    forall k | 0 <= k < |es|
      ensures var cs := FootnoteRun(Initial, es).1;
        && (Building(es[..k]) || IsDefinitionStart(es[k]) <==> cs[k] == DiscardControl())
        && (!Building(es[..k]) && es[k].FootnoteReference? <==> cs[k].Break? && cs[k].process.UseThisInstead?)
        && (cs[k].Continue? <==> cs[k] == UseNext())
    {
      FootnoteRunAt(Initial, es, k);
      FootnoteRunState(es[..k]);
    }
  }

  function Discards(n: nat): (r: seq<EventProcessControl>)
    ensures |r| == n && forall k :: 0 <= k < n ==> r[k] == DiscardControl()
  {
    seq(n, _ => DiscardControl())
  }

  /** Opening a definition and feeding it events: they become its body, and all are removed. */
  lemma {:induction false} OpenDefinitionRun(s: FootnoteState, id: string, body: seq<Event>)
    requires s.building.None?
    requires forall k :: 0 <= k < |body| ==> body[k] != DefinitionEnd
    ensures FootnoteRun(s, [Start(FootnoteDefinition(id))] + body) ==
      (FootnoteState(s.footnotes, s.refs, Some(FootNoteDefinition(id, body))), Discards(|body| + 1))
  {
    var es := [Start(FootnoteDefinition(id))] + body;
    if |body| == 0 {
      assert es == [Start(FootnoteDefinition(id))];
      assert es[..0] == [];
      assert FootnoteRun(s, es[..0]) == (s, []);
      assert [] + [DiscardControl()] == [DiscardControl()] == Discards(1);
    } else {
      var init := body[..|body| - 1];
      var last := body[|body| - 1];
      OpenDefinitionRun(s, id, init);
      assert es[..|es| - 1] == [Start(FootnoteDefinition(id))] + init;
      assert es[|es| - 1] == last;
      var open := FootnoteState(s.footnotes, s.refs, Some(FootNoteDefinition(id, init)));
      var prev := FootnoteRun(s, es[..|es| - 1]);
      assert prev == (open, Discards(|init| + 1));
      assert last != DefinitionEnd;
      var step := FootnoteStep(open, last);
      assert step.0 == DefinitionBodyStep(open, last);
      assert init + [last] == body;
      assert step == (FootnoteState(s.footnotes, s.refs, Some(FootNoteDefinition(id, body))), DiscardControl());
      assert FootnoteRun(s, es) == (step.0, prev.1 + [step.1]);
      assert Discards(|init| + 1) + [DiscardControl()] == Discards(|body| + 1);
    }
  }

  /**
   * A whole definition: it is filed with its body verbatim (references in it
   * are not counted), and every one of its events is removed.
   */
  lemma DefinitionRun(s: FootnoteState, id: string, body: seq<Event>)
    requires s.building.None?
    requires forall k :: 0 <= k < |body| ==> body[k] != DefinitionEnd
    ensures FootnoteRun(s, [Start(FootnoteDefinition(id))] + body + [DefinitionEnd]) ==
      (FootnoteState(s.footnotes + [FootNoteDefinition(id, body)], s.refs, None), Discards(|body| + 2))
  {
    var es := [Start(FootnoteDefinition(id))] + body + [DefinitionEnd];
    OpenDefinitionRun(s, id, body);
    assert es[..|es| - 1] == [Start(FootnoteDefinition(id))] + body;
    assert Discards(|body| + 1) + [DiscardControl()] == Discards(|body| + 2);
  }

  // ---------------------------------------------------------------------
  // Finalizing: the ordered list of definitions
  // ---------------------------------------------------------------------

  /** A definition with its index and the first reference entry for its id, if any. */
  datatype FootnoteSort = FootnoteSort(defIndex: nat, def: FootNoteDefinition, refer: Option<(nat, FootNoteRef)>)

  /** `iter().enumerate().find(|refer| refer.1.id == id)`. */
  function FindRef(refs: seq<FootNoteRef>, id: string): (r: Option<(nat, FootNoteRef)>)
    ensures r.Some? <==> Position(refs, id).Some?
    ensures r.Some? ==> r.value.0 == Position(refs, id).value && r.value.1 == refs[r.value.0]
  {
    match Position(refs, id)
    case Some(k) => Some((k, refs[k]))
    case None => None
  }

  /** The definitions, numbered, each with its reference. */
  function SortItems(defs: seq<FootNoteDefinition>, refs: seq<FootNoteRef>): (items: seq<FootnoteSort>)
    ensures |items| == |defs|
    ensures forall k :: 0 <= k < |defs| ==> items[k] == FootnoteSort(k, defs[k], FindRef(refs, defs[k].id))
  {
    seq(|defs|, k requires 0 <= k < |defs| => FootnoteSort(k, defs[k], FindRef(refs, defs[k].id)))
  }

  function Compare(a: nat, b: nat): int {
    if a < b then -1 else if a == b then 0 else 1
  }

  /** `Ord::cmp` on `FootnoteSort`: referenced before unreferenced, then by reference, else by definition index. */
  function FootnoteCmp(a: FootnoteSort, b: FootnoteSort): int {
    match (a.refer, b.refer)
    case (None, None) => Compare(a.defIndex, b.defIndex)
    case (None, Some(_)) => 1
    case (Some(_), None) => -1
    case (Some(x), Some(y)) => Compare(x.0, y.0)
  }

  /** `PartialEq::eq` on `FootnoteSort`. */
  function FootnoteEq(a: FootnoteSort, b: FootnoteSort): bool {
    match (a.refer, b.refer)
    case (None, None) => a.defIndex == b.defIndex
    case (None, Some(_)) => false
    case (Some(_), None) => false
    case (Some(x), Some(y)) => x.0 == y.0
  }

  /**
   * The position in the list as one number: the reference index for a
   * referenced definition, otherwise `n` (the number of reference entries)
   * plus the definition index.
   */
  function SortKey(n: nat, item: FootnoteSort): nat {
    match item.refer
    case Some(r) => r.0
    case None => n + item.defIndex
  }

  predicate ReferIndexBelow(n: nat, item: FootnoteSort) {
    item.refer.Some? ==> item.refer.value.0 < n
  }

  /**
   * With every reference index below `n`, the comparator is the order of the
   * keys, and equality is equality of keys; so the comparator is a total
   * preorder and a stable sort by it is a stable sort by the key.
   */
  lemma CmpIsKeyOrder(n: nat, a: FootnoteSort, b: FootnoteSort)
    requires ReferIndexBelow(n, a) && ReferIndexBelow(n, b)
    ensures FootnoteCmp(a, b) == Compare(SortKey(n, a), SortKey(n, b))
    ensures FootnoteEq(a, b) <==> SortKey(n, a) == SortKey(n, b)
  {
  }

  /** `Ord::cmp` agrees with `PartialEq::eq`, as Rust requires of the two. */
  lemma CmpAgreesWithEq(a: FootnoteSort, b: FootnoteSort)
    ensures FootnoteCmp(a, b) == 0 <==> FootnoteEq(a, b)
    ensures FootnoteCmp(a, b) == -FootnoteCmp(b, a)
  {
  }

  function ListKey(n: nat): FootnoteSort -> nat {
    item => SortKey(n, item)
  }

  /** The definitions in list order: the stable sort of the items by their key. */
  function SortedItems(defs: seq<FootNoteDefinition>, refs: seq<FootNoteRef>): seq<FootnoteSort> {
    SortByKey(SortItems(defs, refs), ListKey(|refs|))
  }

  lemma SortItemsInRange(defs: seq<FootNoteDefinition>, refs: seq<FootNoteRef>)
    ensures forall item :: item in SortItems(defs, refs) ==> ReferIndexBelow(|refs|, item) && item.defIndex < |defs|
  {
  }

  /** The items of one key, in their order, have increasing definition indexes. */
  lemma {:induction false} WithKeyIncreasing(items: seq<FootnoteSort>, key: FootnoteSort -> nat, k: nat)
    requires forall m :: 0 <= m < |items| ==> items[m].defIndex == m
    ensures forall a, b :: 0 <= a < b < |WithKey(items, key, k)| ==>
      WithKey(items, key, k)[a].defIndex < WithKey(items, key, k)[b].defIndex
  {
    if |items| > 0 {
      var init := items[..|items| - 1];
      WithKeyIncreasing(init, key, k);
      WithKeyElements(init, key, k);
      var w := WithKey(init, key, k);
      assert forall a, b :: 0 <= a < b < |w| ==> w[a].defIndex < w[b].defIndex;
      forall x | x in w ensures x.defIndex < |init| {
        var m :| 0 <= m < |init| && init[m] == x;
      }
      if key(items[|items| - 1]) == k {
        var w' := w + [items[|items| - 1]];
        assert WithKey(items, key, k) == w';
        forall a, b | 0 <= a < b < |w'| ensures w'[a].defIndex < w'[b].defIndex {
          if b == |w| {
            assert w'[a] in w;
          } else {
            assert w'[a] == w[a] && w'[b] == w[b];
          }
        }
      } else {
        assert WithKey(items, key, k) == w + [] == w;
      }
    }
  }

  /**
   * The order of the list: the referenced definitions come first, ascending
   * by the index of their reference entry; the unreferenced ones follow, in
   * definition order; definitions sharing a reference entry (one id defined
   * twice) keep their definition order. The list is a reordering of all
   * definitions.
   */
  lemma FootnoteOrder(defs: seq<FootNoteDefinition>, refs: seq<FootNoteRef>)
    ensures multiset(SortedItems(defs, refs)) == multiset(SortItems(defs, refs))
    ensures forall i, j :: 0 <= i < j < |SortedItems(defs, refs)| ==>
      OrderedPair(SortedItems(defs, refs)[i], SortedItems(defs, refs)[j])
  {
    var n := |refs|;
    var key := ListKey(n);
    var items := SortItems(defs, refs);
    var sorted := SortedItems(defs, refs);
    SortByKeyCorrect(items, key);
    SortItemsInRange(defs, refs);
    forall i, j | 0 <= i < j < |sorted|
      ensures OrderedPair(sorted[i], sorted[j])
    {
      assert sorted[i] in multiset(items) && sorted[j] in multiset(items);
      assert key(sorted[i]) <= key(sorted[j]);
      if key(sorted[i]) == key(sorted[j]) {
        StableWithinKey(items, sorted, key, i, j);
      }
    }
  }

  /** Two items in list order, as the list order demands. */
  predicate OrderedPair(x: FootnoteSort, y: FootnoteSort) {
    && (y.refer.Some? ==> x.refer.Some? && x.refer.value.0 <= y.refer.value.0)
    && (x.refer.None? ==> y.refer.None? && x.defIndex < y.defIndex)
    && (x.refer.Some? && y.refer.Some? && x.refer.value.0 == y.refer.value.0 ==> x.defIndex < y.defIndex)
  }

  /** Stability for one key: two items with the same key keep the order they had. */
  lemma StableWithinKey(items: seq<FootnoteSort>, sorted: seq<FootnoteSort>, key: FootnoteSort -> nat, i: nat, j: nat)
    requires forall m :: 0 <= m < |items| ==> items[m].defIndex == m
    requires i < j < |sorted| && key(sorted[i]) == key(sorted[j])
    requires WithKey(sorted, key, key(sorted[i])) == WithKey(items, key, key(sorted[i]))
    ensures sorted[i].defIndex < sorted[j].defIndex
  {
    var k := key(sorted[i]);
    var w := WithKey(sorted, key, k);
    WithKeyIncreasing(items, key, k);
    WithKeyPlace(sorted, key, k, i);
    WithKeyPlace(sorted, key, k, j);
    WithKeyGrows(sorted, key, k, i, j);
    var a, b := |WithKey(sorted[..i], key, k)|, |WithKey(sorted[..j], key, k)|;
    assert a < b < |w| && w[a] == sorted[i] && w[b] == sorted[j];
  }

  /**
   * For the references counted from `ids`, a definition finds an entry
   * exactly when its id was referenced; the entry's index is the place of
   * the id in order of first occurrence, and its count the number of
   * references, so the definition gets one back-link per reference.
   */
  lemma ItemReference(ids: seq<string>, id: string)
    ensures FindRef(RefsAfter(ids), id).Some? <==> id in ids
    ensures FindRef(RefsAfter(ids), id).Some? ==>
      var r := FindRef(RefsAfter(ids), id).value;
      r.0 < |NewNames(ids, {})| && NewNames(ids, {})[r.0] == id && r.1.refCount == multiset(ids)[id]
  {
    var refs := RefsAfter(ids);
    RefIdsAfter(ids);
    RefCountsAfter(ids);
    NewNamesMeaning(ids, {});
    match Position(refs, id)
    case Some(k) =>
      assert RefIds(refs)[k] == id;
    case None =>
      assert id !in RefIds(refs) by {
        forall k | 0 <= k < |refs| ensures RefIds(refs)[k] != id {
        }
      }
  }

  const AsideOpen: string := "<aside class=\"footnote-def\"><h1>脚注</h1><ol>"
  const AsideClose: string := "</ol></aside>"

  /** The back-links `1..=count` to the anchors of the references to `id`. */
  function Backlinks(id: string, count: nat): (r: seq<Event>)
    ensures |r| == count
  {
    seq(count, k requires 0 <= k < count => Html("<sub><a href=\"#" + AnchorId(id, k + 1) + "\">戻る</a></sub>"))
  }

  /** One list entry: the opening tag, the definition's body, its back-links and the closing tag. */
  function ItemEvents(item: FootnoteSort): seq<Event> {
    [Html("<li id=\"fn_" + item.def.id + "\">")] + item.def.events
      + (match item.refer case Some(r) => Backlinks(item.def.id, r.1.refCount) case None => [])
      + [Html("</li>")]
  }

  function ItemsEvents(items: seq<FootnoteSort>): seq<Event> {
    if |items| == 0 then [] else ItemsEvents(items[..|items| - 1]) + ItemEvents(items[|items| - 1])
  }

  /** The definitions `finalize` lists: those filed, then the one still open. */
  function Flushed(s: FootnoteState): seq<FootNoteDefinition> {
    s.footnotes + (match s.building case Some(d) => [d] case None => [])
  }

  /**
   * `finalize` as a value: nothing when there is no definition, otherwise the
   * list with its entries in list order.
   */
  function FinalizeEvents(s: FootnoteState): Option<seq<Event>> {
    var defs := Flushed(s);
    if |defs| == 0 then None
    else Some([Html(AsideOpen)] + ItemsEvents(SortedItems(defs, s.refs)) + [Html(AsideClose)])
  }

  /**
   * There is a list exactly when some definition was seen, whether references
   * were seen or not; it holds one entry per definition.
   */
  lemma FinalizeNone(s: FootnoteState)
    ensures FinalizeEvents(s).None? <==> s.footnotes == [] && s.building.None?
  {
    if s.building.Some? {
      assert |Flushed(s)| == |s.footnotes| + 1;
    }
  }

  /** The definitions once their events were moved into the list. */
  function Drained(defs: seq<FootNoteDefinition>): (r: seq<FootNoteDefinition>)
    ensures |r| == |defs| && forall k :: 0 <= k < |defs| ==> r[k].id == defs[k].id && r[k].events == []
  {
    seq(|defs|, k requires 0 <= k < |defs| => FootNoteDefinition(defs[k].id, []))
  }

  /** One entry of the list: its opening tag, the definition's events, the backlinks if referenced, the closing tag. */
  method ListItem(item: FootnoteSort) returns (entry: seq<Event>)
    ensures entry == ItemEvents(item)
  {
    var id := item.def.id;
    entry := [Html("<li id=\"fn_" + id + "\">")] + item.def.events;
    if item.refer.Some? {
      entry := entry + Backlinks(id, item.refer.value.1.refCount);
    }
    entry := entry + [Html("</li>")];
  }

  /** The loop of `finalize`: the list around the entries, pushed one after another. */
  method ListEvents(sorted: seq<FootnoteSort>) returns (events: seq<Event>)
    ensures events == [Html(AsideOpen)] + ItemsEvents(sorted) + [Html(AsideClose)]
  {
    events := [Html(AsideOpen)];
    var i := 0;
    while i < |sorted|
      invariant 0 <= i <= |sorted|
      invariant events == [Html(AsideOpen)] + ItemsEvents(sorted[..i])
    {
      var entry := ListItem(sorted[i]);
      assert sorted[..i + 1][..i] == sorted[..i];
      assert ItemsEvents(sorted[..i + 1]) == ItemsEvents(sorted[..i]) + entry;
      events := events + entry;
      i := i + 1;
    }
    assert sorted[..i] == sorted;
    events := events + [Html(AsideClose)];
  }

  /** `FootnoteSubParser`. */
  class FootnoteSubParser {
    var footnotes: seq<FootNoteDefinition>
    var footnoteRefs: seq<FootNoteRef>
    var building: Option<FootNoteDefinition>

    function State(): FootnoteState
      reads this
    {
      FootnoteState(footnotes, footnoteRefs, building)
    }

    constructor ()
      ensures State() == Initial
    {
      footnotes, footnoteRefs, building := [], [], None;
    }

    /** `add_footnote_reference`: the reference counted, and the HTML it becomes. */
    method AddFootnoteReference(id: string) returns (html: string)
      modifies this
      ensures footnoteRefs == AddReference(old(footnoteRefs), id).0
      ensures html == ReferenceHtml(id, footnoteRefs[AddReference(old(footnoteRefs), id).1].refCount,
                                    AddReference(old(footnoteRefs), id).1)
      ensures footnotes == old(footnotes) && building == old(building)
    {
      var index := 0;
      while index < |footnoteRefs| && footnoteRefs[index].id != id
        invariant 0 <= index <= |footnoteRefs|
        invariant forall k :: 0 <= k < index ==> footnoteRefs[k].id != id
      {
        index := index + 1;
      }
      if index == |footnoteRefs| {
        footnoteRefs := footnoteRefs + [FootNoteRef(id, 0)];
      }
      footnoteRefs := footnoteRefs[index := footnoteRefs[index].(refCount := footnoteRefs[index].refCount + 1)];
      html := ReferenceHtml(id, footnoteRefs[index].refCount, index);
    }

    /** `process_definition_body`. */
    method ProcessDefinitionBody(e: Event)
      requires building.Some?
      modifies this
      ensures State() == DefinitionBodyStep(old(State()), e)
    {
      if e == DefinitionEnd {
        var footnote := building.value;
        building := None;
        footnotes := footnotes + [footnote];
        return;
      }
      var footnote := building.value;
      building := Some(footnote.(events := footnote.events + [e]));
    }

    /** `receive_event`: the step above, on the fields. */
    method ReceiveEvent(e: Event) returns (c: EventProcessControl)
      modifies this
      ensures (State(), c) == FootnoteStep(old(State()), e)
    {
      if building.Some? {
        ProcessDefinitionBody(e);
        return DiscardControl();
      }
      if IsDefinitionStart(e) {
        building := Some(FootNoteDefinition(e.tag.id, []));
        c := DiscardControl();
      } else if e.FootnoteReference? {
        var html := AddFootnoteReference(e.id);
        c := UseHtml(html);
      } else {
        c := UseNext();
      }
    }

    /**
     * `finalize`: the open definition is filed, and the list is built from
     * the definitions sorted into list order; their events move into it.
     */
    method Finalize() returns (r: Option<seq<Event>>)
      modifies this
      ensures r == FinalizeEvents(old(State()))
      ensures State() == FootnoteState(Drained(Flushed(old(State()))), old(footnoteRefs), None)
    {
      if building.Some? {
        footnotes := footnotes + [building.value];
        building := None;
      }
      assert footnotes == Flushed(old(State()));
      if |footnotes| == 0 {
        return None;
      }
      var sorted := StableSortByKey(SortItems(footnotes, footnoteRefs), ListKey(|footnoteRefs|));
      var events := ListEvents(sorted);
      footnotes := Drained(footnotes);
      r := Some(events);
    }
  }
}
