/**
 * The front-matter sub-parser: the text of a `+++` block is captured and
 * removed from the output; anything but text inside the block, and a
 * second block, abort the process.
 */
module Frontmatter {
  import opened Wrappers
  import opened Strings
  import opened Events
  import opened Control

  datatype FrontmatterState = FrontmatterState(body: Option<string>, inFrontmatter: bool)

  /** `FrontmatterSubParser::default()`. */
  const Initial: FrontmatterState := FrontmatterState(None, false)

  /** The two aborts' messages. */
  const BeginTwice := "Encountered to the toml beginning twice"
  const OutsideText := "Only Event::Text() and METADATA_TOML_END should come within frontmatter"

  /** `FrontmatterSubParser::receive_event` on a state, as a value. */
  function FrontmatterStep(s: FrontmatterState, e: Event): (r: Outcome<(FrontmatterState, EventProcessControl)>)
    ensures !s.inFrontmatter && e == TomlStart ==> (r.Panic? <==> s.body.Some?)
    ensures !s.inFrontmatter && e != TomlStart ==> r == Done((s, UseNext()))
    ensures s.inFrontmatter ==> (r.Done? <==> e.Text? || e == TomlEnd)
    ensures r.Done? && (s.inFrontmatter || e == TomlStart) ==> r.value.1 == DiscardControl()
    ensures r.Done? ==> r.value.0.inFrontmatter == (if e == TomlStart then true else if e == TomlEnd then false else s.inFrontmatter)
  {
    if !s.inFrontmatter then
      if e == TomlStart then
        if s.body.Some? then Panic(BeginTwice)
        else Done((FrontmatterState(s.body, true), DiscardControl()))
      else Done((s, UseNext()))
    else if e.Text? then
      var body := match s.body case Some(b) => b + e.text case None => e.text;
      Done((FrontmatterState(Some(body), true), DiscardControl()))
    else if e == TomlEnd then
      Done((FrontmatterState(s.body, false), DiscardControl()))
    else
      Panic(OutsideText)
  }

  /** The sub-parser fed a stream of events: the final state and every answer, or the first abort. */
  function FrontmatterRun(s: FrontmatterState, es: seq<Event>): Outcome<(FrontmatterState, seq<EventProcessControl>)> {
    if |es| == 0 then Done((s, []))
    else
      match FrontmatterRun(s, es[..|es| - 1])
      case Panic(m) => Panic(m)
      case Done(acc) =>
        match FrontmatterStep(acc.0, es[|es| - 1])
        case Panic(m) => Panic(m)
        case Done(step) => Done((step.0, acc.1 + [step.1]))
  }

  /** Whether the last `+++` marker in `es` opens a block. */
  function InsideAfter(es: seq<Event>): bool {
    if |es| == 0 then false
    else if es[|es| - 1] == TomlStart then true
    else if es[|es| - 1] == TomlEnd then false
    else InsideAfter(es[..|es| - 1])
  }

  /** The texts of `es` that come after an opening marker with no closing one in between. */
  function CapturedTexts(es: seq<Event>): seq<string> {
    if |es| == 0 then []
    else
      var init := es[..|es| - 1];
      CapturedTexts(init) + (if es[|es| - 1].Text? && InsideAfter(init) then [es[|es| - 1].text] else [])
  }

  function BodyOf(texts: seq<string>): Option<string> {
    if |texts| == 0 then None else Some(Concat(texts))
  }

  /**
   * After any stream the sub-parser accepts, it is inside a block exactly
   * when the last marker opened one, and the captured body is the
   * concatenation of the texts inside blocks, or nothing when there was no
   * such text (an empty text still counts).
   */
  lemma {:induction false} FrontmatterRunState(es: seq<Event>)
    ensures FrontmatterRun(Initial, es).Done? ==>
      FrontmatterRun(Initial, es).value.0 == FrontmatterState(BodyOf(CapturedTexts(es)), InsideAfter(es))
  {
    if |es| > 0 && FrontmatterRun(Initial, es).Done? {
      var init := es[..|es| - 1];
      var e := es[|es| - 1];
      FrontmatterRunState(init);
      var s := FrontmatterRun(Initial, init).value.0;
      assert FrontmatterStep(s, e).Done?;
      assert FrontmatterRun(Initial, es).value.0 == FrontmatterStep(s, e).value.0;
      if e.Text? && InsideAfter(init) {
        assert CapturedTexts(es) == CapturedTexts(init) + [e.text];
        BodyStep(CapturedTexts(init), e.text);
      } else {
        assert CapturedTexts(es) == CapturedTexts(init) + [] == CapturedTexts(init);
      }
    }
  }

  /** One more captured text: appended to the body, or the body when there was none. */
  lemma BodyStep(ts: seq<string>, x: string)
    ensures BodyOf(ts + [x]) == Some(match BodyOf(ts) case Some(b) => b + x case None => x)
  {
    if |ts| > 0 {
      assert (ts + [x])[..|ts|] == ts;
    } else {
      assert ts + [x] == [x];
      assert Concat([x]) == Concat([]) + x == x;
    }
  }

  /** Every marker and every event inside a block is removed; every other event goes on. */
  lemma {:induction false} FrontmatterRunAnswers(es: seq<Event>)
    ensures FrontmatterRun(Initial, es).Done? ==>
      var cs := FrontmatterRun(Initial, es).value.1;
      |cs| == |es| &&
      forall k :: 0 <= k < |es| ==>
        cs[k] == (if InsideAfter(es[..k]) || es[k] == TomlStart then DiscardControl() else UseNext())
  {
    if |es| > 0 && FrontmatterRun(Initial, es).Done? {
      var init := es[..|es| - 1];
      FrontmatterRunAnswers(init);
      FrontmatterRunState(init);
      var acc := FrontmatterRun(Initial, init).value;
      var step := FrontmatterStep(acc.0, es[|es| - 1]).value;
      var cs := FrontmatterRun(Initial, es).value.1;
      assert cs == acc.1 + [step.1];
      forall k | 0 <= k < |es|
        ensures cs[k] == (if InsideAfter(es[..k]) || es[k] == TomlStart then DiscardControl() else UseNext())
      {
        if k < |init| {
          assert es[..k] == init[..k] && es[k] == init[k];
        } else {
          assert es[..k] == init;
        }
      }
    }
  }

  /** `FrontmatterSubParser`. */
  class FrontmatterSubParser {
    var body: Option<string>
    var inFrontmatter: bool

    function State(): FrontmatterState
      reads this
    {
      FrontmatterState(body, inFrontmatter)
    }

    constructor ()
      ensures State() == Initial
    {
      body := None;
      inFrontmatter := false;
    }

    /** `receive_event`: the step above, on the fields. */
    method ReceiveEvent(e: Event) returns (r: Outcome<EventProcessControl>)
      modifies this
      ensures FrontmatterStep(old(State()), e).Panic? ==> r.Panic?
      ensures FrontmatterStep(old(State()), e).Done? ==>
        r == Done(FrontmatterStep(old(State()), e).value.1) && State() == FrontmatterStep(old(State()), e).value.0
    {
      if !inFrontmatter {
        if e == TomlStart {
          if body.Some? {
            return Panic(BeginTwice);
          }
          inFrontmatter := true;
          r := Done(DiscardControl());
        } else {
          r := Done(UseNext());
        }
      } else if e.Text? {
        match body {
          case Some(b) => body := Some(b + e.text);
          case None => body := Some(e.text);
        }
        r := Done(DiscardControl());
      } else if e == TomlEnd {
        inFrontmatter := false;
        r := Done(DiscardControl());
      } else {
        r := Panic(OutsideText);
      }
    }

    /** `compose_output`: the captured body. */
    function ComposeOutput(): Option<string>
      reads this
    {
      body
    }
  }
}
