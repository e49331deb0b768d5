/**
 * The specification of findAndClickCollectionDeComptes: a bounded retry search for the control
 * labelled "Collection de comptes :". The live document is abstracted as what each attempt sees:
 * `render(i)` is the page as the i-th attempt (counting from 0) enumerates it.
 */
module Locator {
  import opened Wrappers
  import opened JsText
  import opened Events

  const Label := "Collection de comptes :"

  /**
   * An element the search looks at: the text it is matched on (None when it has none, e.g. a
   * button without a '.swt-check-button-text' child) and whether `click()` on it throws.
   */
  datatype Candidate = Candidate(text: Option<string>, clickThrows: bool)

  /** The document as one attempt enumerates it: the button-like elements, then all elements. */
  datatype Snapshot = Snapshot(buttons: seq<Candidate>, elements: seq<Candidate>)

  predicate Matches(c: Candidate) {
    c.text.Some? && Trim(c.text.value) == Label
  }

  /** A candidate the search clicks and stops at: it matches and its click does not throw. */
  predicate Clicks(c: Candidate) {
    Matches(c) && !c.clickThrows
  }

  /** The first index in [from, bound) where `p` holds: the order both the candidate scan and the attempts follow. */
  function FirstFrom(p: nat -> bool, from: nat, bound: nat): (r: Option<nat>)
    requires from <= bound
    ensures r.Some? ==> from <= r.value < bound && p(r.value)
    decreases bound - from
  {
    if from == bound then None
    else if p(from) then Some(from)
    else FirstFrom(p, from + 1, bound)
  }

  /** FirstFrom finds the first: `p` fails everywhere before the index it returns, and everywhere when it returns None. */
  lemma {:induction false} FirstFromIsFirst(p: nat -> bool, from: nat, bound: nat)
    requires from <= bound
    ensures FirstFrom(p, from, bound).Some? ==> forall j :: from <= j < FirstFrom(p, from, bound).value ==> !p(j)
    ensures FirstFrom(p, from, bound).None? ==> forall j :: from <= j < bound ==> !p(j)
    decreases bound - from
  {
    if from < bound && !p(from) {
      FirstFromIsFirst(p, from + 1, bound);
    }
  }

  /** Which candidates of a pass the search would click. */
  function ClicksAt(cs: seq<Candidate>): nat -> bool {
    (i: nat) => i < |cs| && Clicks(cs[i])
  }

  /** The candidate one pass clicks: the first that matches and does not throw. */
  function FirstClickable(cs: seq<Candidate>): Option<nat> {
    FirstFrom(ClicksAt(cs), 0, |cs|)
  }

  /** The click one attempt makes: the first button pass hit, else the first text-content pass hit. */
  function AttemptClick(s: Snapshot): Option<Entry> {
    match FirstClickable(s.buttons)
    case Some(i) => Some(Click(ButtonText, i))
    case None =>
      match FirstClickable(s.elements)
      case Some(i) => Some(Click(TextContent, i))
      case None => None
  }

  predicate AttemptHits(s: Snapshot) {
    AttemptClick(s).Some?
  }

  /** An attempt succeeds exactly when one of its two passes holds a candidate it can click. */
  lemma AttemptHitsIff(s: Snapshot)
    ensures AttemptHits(s) <==>
      (exists i :: 0 <= i < |s.buttons| && Clicks(s.buttons[i])) ||
      (exists i :: 0 <= i < |s.elements| && Clicks(s.elements[i]))
  {
    if !AttemptHits(s) {
      FirstFromIsFirst(ClicksAt(s.buttons), 0, |s.buttons|);
      FirstFromIsFirst(ClicksAt(s.elements), 0, |s.elements|);
      forall i | 0 <= i < |s.buttons| ensures !Clicks(s.buttons[i]) {
        assert !ClicksAt(s.buttons)(i);
      }
      forall i | 0 <= i < |s.elements| ensures !Clicks(s.elements[i]) {
        assert !ClicksAt(s.elements)(i);
      }
    }
  }

  /** Which attempts would click. */
  function HitsAt(render: nat -> Snapshot): nat -> bool {
    (i: nat) => AttemptHits(render(i))
  }

  /** The first attempt, below the ceiling, that clicks. */
  function FirstHit(render: nat -> Snapshot): Option<nat> {
    FirstFrom(HitsAt(render), 0, MaxRetries)
  }

  /** The search reports success exactly when some attempt below the ceiling can click. */
  lemma FoundIff(render: nat -> Snapshot)
    ensures FirstHit(render).Some? <==> exists i :: 0 <= i < MaxRetries && AttemptHits(render(i))
  {
    FirstFromIsFirst(HitsAt(render), 0, MaxRetries);
    if FirstHit(render).Some? {
      var k := FirstHit(render).value;
      assert HitsAt(render)(k);
    } else {
      forall i | 0 <= i < MaxRetries ensures !AttemptHits(render(i)) {
        assert !HitsAt(render)(i);
      }
    }
  }

  /** The number of attempts made: up to and including the first that clicks, else all of them. */
  function Attempts(render: nat -> Snapshot): (n: nat)
    ensures 1 <= n <= MaxRetries
  {
    match FirstHit(render)
    case Some(k) => k + 1
    case None => MaxRetries
  }

  /**
   * Retry ceiling and stop: every attempt but the last failed, and the last one clicked exactly
   * when the search succeeds, so no attempt runs after a click.
   */
  lemma AttemptsStopAtFirstHit(render: nat -> Snapshot)
    ensures forall j :: 0 <= j < Attempts(render) - 1 ==> !AttemptHits(render(j))
    ensures FirstHit(render).Some? <==> AttemptHits(render(Attempts(render) - 1))
  {
    var n := Attempts(render);
    FirstFromIsFirst(HitsAt(render), 0, MaxRetries);
    forall j | 0 <= j < n - 1 ensures !AttemptHits(render(j)) {
      assert !HitsAt(render)(j);
    }
    assert HitsAt(render)(n - 1) == AttemptHits(render(n - 1));
  }

  /**
   * The trace of the search: a backoff of twice the very long delay after each failed attempt,
   * then, if an attempt clicks, the click and a very long settle delay.
   */
  function LocateEntries(render: nat -> Snapshot): seq<Entry> {
    match FirstHit(render)
    case Some(k) => Repeat([Delay(2 * SleepVeryLongMs)], k) + [AttemptClick(render(k)).value, Delay(SleepVeryLongMs)]
    case None => Repeat([Delay(2 * SleepVeryLongMs)], MaxRetries)
  }

  /**
   * Where the search stands after `r` missed attempts, and a click on attempt r when `hit`: the
   * first hit is r, or lies among the attempts still to come.
   */
  predicate SearchedSoFar(render: nat -> Snapshot, r: nat, hit: bool) {
    r <= MaxRetries &&
    (hit ==> r < MaxRetries && FirstHit(render) == Some(r)) &&
    (!hit ==> FirstHit(render) == FirstFrom(HitsAt(render), r, MaxRetries))
  }

  /** The trace of the search so far: a backoff per missed attempt, then the click and its settle delay. */
  function SearchedEntries(render: nat -> Snapshot, r: nat, hit: bool): seq<Entry>
    requires hit ==> AttemptHits(render(r))
  {
    Repeat([Delay(2 * SleepVeryLongMs)], r) + if hit then [AttemptClick(render(r)).value, Delay(SleepVeryLongMs)] else []
  }

  /** One round of the search from `r` missed attempts: a hit stops it at r, a miss adds one backoff. */
  lemma SearchStep(render: nat -> Snapshot, r: nat)
    requires r < MaxRetries && SearchedSoFar(render, r, false)
    ensures var hit := AttemptHits(render(r));
      SearchedSoFar(render, if hit then r else r + 1, hit) &&
      SearchedEntries(render, if hit then r else r + 1, hit) ==
        SearchedEntries(render, r, false) +
        if hit then [AttemptClick(render(r)).value, Delay(SleepVeryLongMs)] else [Delay(2 * SleepVeryLongMs)]
  {
    assert HitsAt(render)(r) == AttemptHits(render(r));
    assert SearchedEntries(render, r, false) == Repeat([Delay(2 * SleepVeryLongMs)], r);
  }

  /** How the search ends: at the first hit, or with every attempt spent; either way its trace is the specified one. */
  lemma SearchEnds(render: nat -> Snapshot, r: nat, hit: bool)
    requires SearchedSoFar(render, r, hit)
    requires !hit ==> r == MaxRetries
    ensures hit ==> AttemptHits(render(r))
    ensures hit == FirstHit(render).Some?
    ensures Attempts(render) == r + (if hit then 1 else 0)
    ensures LocateEntries(render) == SearchedEntries(render, r, hit)
  {
  }

  /** The search dispatches no key or field event: at most the one click, and only when it succeeds. */
  lemma LocateDispatchesOnlyTheClick(render: nat -> Snapshot)
    ensures Dispatched(LocateEntries(render)) ==
      match FirstHit(render)
      case Some(k) => [AttemptClick(render(k)).value]
      case None => []
  {
    var backoff := [Delay(2 * SleepVeryLongMs)];
    assert Dispatched(backoff) == [];
    match FirstHit(render)
    case Some(k) =>
      var click := AttemptClick(render(k)).value;
      DispatchedAppend(Repeat(backoff, k), [click, Delay(SleepVeryLongMs)]);
      DispatchedRepeat(backoff, k);
      EmptyRepeat<Entry>(k);
      assert Dispatched([click, Delay(SleepVeryLongMs)]) == [click];
    case None =>
      DispatchedRepeat(backoff, MaxRetries);
      EmptyRepeat<Entry>(MaxRetries);
  }

  /**
   * Retry ceiling: the search waits out one 1000 ms backoff per failed attempt, so never more than
   * MAX_RETRIES of them; its trace is those backoffs plus, on success, the click and its settle delay.
   */
  lemma BackoffCount(render: nat -> Snapshot)
    ensures multiset(LocateEntries(render))[Delay(2 * SleepVeryLongMs)] ==
      Attempts(render) - (if FirstHit(render).Some? then 1 else 0)
    ensures |LocateEntries(render)| == if FirstHit(render).Some? then Attempts(render) + 1 else MaxRetries
  {
    var backoff := Delay(2 * SleepVeryLongMs);
    match FirstHit(render)
    case Some(k) =>
      RepeatLength([backoff], k);
      RepeatCount(backoff, k);
      var tail := [AttemptClick(render(k)).value, Delay(SleepVeryLongMs)];
      assert multiset(tail)[backoff] == 0;
      assert multiset(Repeat([backoff], k) + tail) == multiset(Repeat([backoff], k)) + multiset(tail);
    case None =>
      RepeatLength([backoff], MaxRetries);
      RepeatCount(backoff, MaxRetries);
  }

  /** The page before the control is rendered, and once it is (padded, as text content often is). */
  const Blank := Snapshot([], [])
  const PaddedLabel := "  " + Label + "\n"
  const Rendered := Snapshot([Candidate(None, false), Candidate(Some(PaddedLabel), false)], [])

  /** The padded text content matches the label once trimmed. */
  lemma PaddedLabelMatches()
    ensures Trim(PaddedLabel) == Label
  {
    assert AllTrimmable("  ") && AllTrimmable("\n");
    assert Label[0] == 'C' && Label[|Label| - 1] == ':';
    TrimPadded("  ", Label, "\n");
  }

  /** The rendered page is hit at its second button, the first having no label text. */
  lemma RenderedHits()
    ensures AttemptClick(Rendered) == Some(Click(ButtonText, 1))
  {
    PaddedLabelMatches();
    var bs := Rendered.buttons;
    assert !Clicks(bs[0]) && Clicks(bs[1]);
    assert FirstFrom(ClicksAt(bs), 1, |bs|) == Some(1);
  }

  /** A page on which the control is rendered only in time for the 4th enumeration. */
  function LateRender(i: nat): Snapshot {
    if i < 3 then Blank else Rendered
  }

  /**
   * The control appears only at the 4th enumeration: the search clicks it at the 4th attempt,
   * after exactly three backoffs.
   */
  lemma LateRenderIsFoundAtFourthAttempt()
    ensures FirstHit(LateRender) == Some(3) && Attempts(LateRender) == 4
    ensures LocateEntries(LateRender) == Repeat([Delay(1000)], 3) + [Click(ButtonText, 1), Delay(500)]
  {
    RenderedHits();
    assert FirstFrom(ClicksAt([]), 0, 0) == None;
    assert !AttemptHits(Blank);
    var p := HitsAt(LateRender);
    assert p(0) == AttemptHits(Blank) && p(1) == AttemptHits(Blank) && p(2) == AttemptHits(Blank);
    assert p(3) == AttemptHits(Rendered);
    assert FirstFrom(p, 3, MaxRetries) == Some(3);
    assert FirstFrom(p, 2, MaxRetries) == Some(3);
    assert FirstFrom(p, 1, MaxRetries) == Some(3);
    assert FirstFrom(p, 0, MaxRetries) == Some(3);
  }

  /** A candidate whose click throws is passed over, and the search goes on to the next match. */
  lemma ThrowingClickIsSkipped(good: Candidate)
    requires Clicks(good)
    ensures var s := Snapshot([good.(clickThrows := true), good], []); AttemptClick(s) == Some(Click(ButtonText, 1))
  {
    var bs := [good.(clickThrows := true), good];
    assert !Clicks(bs[0]);
    assert FirstFrom(ClicksAt(bs), 1, |bs|) == Some(1);
  }

  /** A control that never appears exhausts the budget: MAX_RETRIES attempts, then failure. */
  lemma NeverRenderedExhausts()
    ensures var render := (i: nat) => Blank;
      FirstHit(render).None? && Attempts(render) == MaxRetries && LocateEntries(render) == Repeat([Delay(1000)], 10)
  {
    var render := (i: nat) => Blank;
    assert !AttemptHits(Blank);
  }
}
