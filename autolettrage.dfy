/**
 * The userscript's control core over an abstract page: the element ids it adds and removes, whether
 * the host toolbar is there, the focused element, and the append-only trace of what it dispatches
 * and awaits. The live DOM, its selectors and its styling are not modelled.
 */
module Autolettrage {
  import opened Wrappers
  import opened Events
  import opened Keys
  import opened Locator

  /** An element as the field editor sees it: its tag name and its value. */
  datatype Element = Element(tag: string, value: string)

  /** document.activeElement: null, the body, or some other element. */
  datatype Focus = Nothing | Body | On(el: Element) {
    /** Whether the element is truthy as a target. */
    predicate Present() {
      !Nothing?
    }
  }

  predicate IsField(f: Focus) {
    f.On? && (f.el.tag == "INPUT" || f.el.tag == "TEXTAREA")
  }

  /** The ids the script looks its own nodes up by. */
  datatype NodeId = BlurOverlay | ProgressContainer | LetterButton

  // ----- OverlayManager -----

  /** The page after showLoadingOverlay: unchanged if a #blurOverlay exists, else both nodes added. */
  function ShownOverlay(m: multiset<NodeId>): multiset<NodeId> {
    if m[BlurOverlay] > 0 then m else m + multiset{BlurOverlay, ProgressContainer}
  }

  /** The page after removeLoadingOverlay: the first node with each id, if any, removed. */
  function RemovedOverlay(m: multiset<NodeId>): multiset<NodeId> {
    m - multiset{BlurOverlay, ProgressContainer}
  }

  /** Each overlay node at most once, and the progress bar never without its backdrop. */
  predicate OverlayWellFormed(m: multiset<NodeId>) {
    m[ProgressContainer] <= m[BlurOverlay] <= 1
  }

  /** show() is idempotent, leaves one overlay showing, and keeps the overlay well formed. */
  lemma ShowOverlayIdempotent(m: multiset<NodeId>)
    ensures ShownOverlay(ShownOverlay(m)) == ShownOverlay(m)
    ensures ShownOverlay(m)[BlurOverlay] >= 1
    ensures OverlayWellFormed(m) ==> OverlayWellFormed(ShownOverlay(m)) && ShownOverlay(m)[BlurOverlay] == 1
    ensures ShownOverlay(m)[LetterButton] == m[LetterButton]
  {
  }

  /** remove() clears a well-formed overlay, is safe when there is none, and touches nothing else. */
  lemma RemoveOverlayClears(m: multiset<NodeId>)
    ensures OverlayWellFormed(m) ==> RemovedOverlay(m)[BlurOverlay] == 0 && RemovedOverlay(m)[ProgressContainer] == 0
    ensures m[BlurOverlay] == 0 && m[ProgressContainer] == 0 ==> RemovedOverlay(m) == m
    ensures OverlayWellFormed(m) ==> RemovedOverlay(RemovedOverlay(m)) == RemovedOverlay(m)
    ensures RemovedOverlay(m)[LetterButton] == m[LetterButton]
  {
  }

  // ----- Button injection -----

  /** The page after addEditionButton: one #letterButton added only if none exists and the toolbar does. */
  function WithButton(m: multiset<NodeId>, toolbar: bool): multiset<NodeId> {
    if m[LetterButton] > 0 || !toolbar then m else m + multiset{LetterButton}
  }

  /** addEditionButton called `n` times in a row. */
  function WithButtonTimes(m: multiset<NodeId>, toolbar: bool, n: nat): multiset<NodeId> {
    if n == 0 then m else WithButton(WithButtonTimes(m, toolbar, n - 1), toolbar)
  }

  /**
   * Idempotent injection: any number n >= 1 of calls leaves the page as one call does, that is with
   * exactly one button when the toolbar is there and none existed, and the page untouched otherwise.
   */
  lemma {:induction false} AddButtonIdempotent(m: multiset<NodeId>, toolbar: bool, n: nat)
    requires n >= 1
    ensures WithButtonTimes(m, toolbar, n) == WithButton(m, toolbar)
    ensures m[LetterButton] == 0 && toolbar ==> WithButton(m, toolbar)[LetterButton] == 1
    ensures m[LetterButton] > 0 || !toolbar ==> WithButton(m, toolbar) == m
  {
    if n > 1 {
      AddButtonIdempotent(m, toolbar, n - 1);
    }
  }

  /** At most one button: injection never makes a second one, and never touches the overlay. */
  lemma AtMostOneButton(m: multiset<NodeId>, toolbar: bool)
    requires m[LetterButton] <= 1
    ensures WithButton(m, toolbar)[LetterButton] <= 1
    ensures WithButton(m, toolbar)[BlurOverlay] == m[BlurOverlay]
    ensures WithButton(m, toolbar)[ProgressContainer] == m[ProgressContainer]
  {
  }

  // ----- FieldEditor -----

  /** The focus after pasteText(text) or pressBackspace: a field's value replaced, anything else unchanged. */
  function Pasted(f: Focus, text: string): Focus {
    if IsField(f) then On(f.el.(value := text)) else f
  }

  /** The trace of pasteText(text): input then change, then a short settle delay; nothing off a field. */
  function PasteEntries(f: Focus, text: string): seq<Entry> {
    if IsField(f) then [Input, Change, Delay(SleepDefaultMs)] else []
  }

  /** The trace of pressBackspace on an element: as pasting, with twice the settle delay. */
  function ClearEntries(f: Focus): seq<Entry> {
    if IsField(f) then [Input, Change, Delay(2 * SleepDefaultMs)] else []
  }

  /** A field takes the pasted text and raises input then change, once each; any other target is left alone. */
  lemma PasteSetsValue(f: Focus, text: string)
    ensures IsField(f) ==> Pasted(f, text) == On(Element(f.el.tag, text)) &&
                           Dispatched(PasteEntries(f, text)) == [Input, Change]
    ensures !IsField(f) ==> Pasted(f, text) == f && PasteEntries(f, text) == []
    ensures IsField(Pasted(f, text)) == IsField(f) && Pasted(f, text).Present() == f.Present()
  {
    if IsField(f) {
      assert PasteEntries(f, text) == [Input, Change] + [Delay(SleepDefaultMs)];
      DispatchedAppend([Input, Change], [Delay(SleepDefaultMs)]);
    }
  }

  /** pressBackspace empties a field and raises input then change, once each; any other element is left alone. */
  lemma ClearEmptiesField(f: Focus)
    ensures IsField(f) ==> Pasted(f, "") == On(Element(f.el.tag, "")) && Dispatched(ClearEntries(f)) == [Input, Change]
    ensures !IsField(f) ==> Pasted(f, "") == f && ClearEntries(f) == []
  {
    if IsField(f) {
      assert ClearEntries(f) == [Input, Change] + [Delay(2 * SleepDefaultMs)];
      DispatchedAppend([Input, Change], [Delay(2 * SleepDefaultMs)]);
    }
  }

  // ----- Sequencer -----

  datatype Outcome = Completed | NoFocusTarget | Aborted

  /** CODES.FIRST, the account codes the sequence pastes. */
  const Codes := "442100,342100,511500,511100"

  /** The trace of steps 3 to 6 from focus `f`: Tab x6, ArrowRight, paste the codes, Enter. */
  function FillCodesEntries(f: Focus): seq<Entry> {
    var p := f.Present();
    PressKeyEntries("Tab", p, 6) + PressKeyEntries("ArrowRight", p, 1) + PasteEntries(f, Codes) + PressKeyEntries("Enter", p, 1)
  }

  /** The trace of the walk to the confirmation, with or without a target: Tab x9, Enter, Enter x3, Tab x2, Enter. */
  function ConfirmEntries(p: bool): seq<Entry> {
    PressKeyEntries("Tab", p, 9) + PressKeyEntries("Enter", p, 1) + PressKeyEntries("Enter", p, 3) +
    PressKeyEntries("Tab", p, 2) + PressKeyEntries("Enter", p, 1)
  }

  /** The trace of the closing steps: a 2000 ms wait, Tab x4, Enter. */
  function CloseEntries(p: bool): seq<Entry> {
    [Delay(2000)] + PressKeyEntries("Tab", p, 4) + PressKeyEntries("Enter", p, 1)
  }

  /** The trace of steps 3 to the end of runKeySequence from focus `f`. */
  function TailEntries(f: Focus): seq<Entry> {
    FillCodesEntries(f) + ConfirmEntries(f.Present()) + CloseEntries(f.Present())
  }

  /** Steps 3 to 6 dispatch 8 key triples, and the input and change events when the target is a field. */
  lemma FillCodesCount(f: Focus)
    requires f.Present()
    ensures |Dispatched(FillCodesEntries(f))| == 24 + if IsField(f) then 2 else 0
  {
    var tab, right, paste, enter :=
      PressKeyEntries("Tab", true, 6), PressKeyEntries("ArrowRight", true, 1), PasteEntries(f, Codes), PressKeyEntries("Enter", true, 1);
    PressKeyCount("Tab", 6);
    PressKeyCount("ArrowRight", 1);
    PressKeyCount("Enter", 1);
    PasteSetsValue(f, Codes);
    DispatchedLength(tab, right);
    DispatchedLength(tab + right, paste);
    DispatchedLength(tab + right + paste, enter);
  }

  /** The walk to the confirmation dispatches 16 key triples. */
  lemma ConfirmCount()
    ensures |Dispatched(ConfirmEntries(true))| == 48
  {
    var a, b, c, d, e :=
      PressKeyEntries("Tab", true, 9), PressKeyEntries("Enter", true, 1), PressKeyEntries("Enter", true, 3),
      PressKeyEntries("Tab", true, 2), PressKeyEntries("Enter", true, 1);
    PressKeyCount("Tab", 9);
    PressKeyCount("Enter", 1);
    PressKeyCount("Enter", 3);
    PressKeyCount("Tab", 2);
    DispatchedLength(a, b);
    DispatchedLength(a + b, c);
    DispatchedLength(a + b + c, d);
    DispatchedLength(a + b + c + d, e);
  }

  /** The closing steps dispatch 5 key triples. */
  lemma CloseCount()
    ensures |Dispatched(CloseEntries(true))| == 15
  {
    var w, tab, enter := [Delay(2000)], PressKeyEntries("Tab", true, 4), PressKeyEntries("Enter", true, 1);
    PressKeyCount("Tab", 4);
    PressKeyCount("Enter", 1);
    assert Dispatched(w) == [];
    DispatchedLength(w, tab);
    DispatchedLength(w + tab, enter);
  }

  /** Event count of steps 3 to the end: 29 key triples, plus input and change on a field. */
  lemma TailCount(f: Focus)
    requires f.Present()
    ensures |Dispatched(TailEntries(f))| == 87 + if IsField(f) then 2 else 0
  {
    FillCodesCount(f);
    ConfirmCount();
    CloseCount();
    DispatchedLength(FillCodesEntries(f), ConfirmEntries(true));
    DispatchedLength(FillCodesEntries(f) + ConfirmEntries(true), CloseEntries(true));
  }

  /** The focus the run drives: the active element, or the substitute it focuses when that is null or the body. */
  function RunTarget(f0: Focus, focusable: Option<Element>): Option<Focus> {
    if f0.Present() && !f0.Body? then Some(f0)
    else if focusable.Some? then Some(On(focusable.value))
    else None
  }

  function RunOutcome(f0: Focus, focusable: Option<Element>, render: nat -> Snapshot): Outcome {
    if RunTarget(f0, focusable).None? then NoFocusTarget
    else if FirstHit(render).Some? then Completed
    else Aborted
  }

  /** The trace of a run: Ctrl+0, the locator, then the script only if the locator clicked. */
  function RunEntries(f0: Focus, focusable: Option<Element>, render: nat -> Snapshot): seq<Entry> {
    match RunTarget(f0, focusable)
    case None => []
    case Some(f) =>
      Ctrl0Entries(true) + LocateEntries(render) + (if FirstHit(render).Some? then TailEntries(f) else [])
  }

  function RunFocus(f0: Focus, focusable: Option<Element>, render: nat -> Snapshot): Focus {
    match RunTarget(f0, focusable)
    case None => f0
    case Some(f) => if FirstHit(render).Some? then Pasted(f, Codes) else f
  }

  /** The page's nodes after a run: shown once, removed once, and once more by `finally` after an early return. */
  function RunNodes(m: multiset<NodeId>, outcome: Outcome): multiset<NodeId> {
    if outcome == Completed then RemovedOverlay(ShownOverlay(m))
    else RemovedOverlay(RemovedOverlay(ShownOverlay(m)))
  }

  /** Teardown on every exit path: whatever the outcome, no overlay is left, and the button is untouched. */
  lemma RunTearsDownOverlay(m: multiset<NodeId>, outcome: Outcome)
    requires OverlayWellFormed(m)
    ensures RunNodes(m, outcome)[BlurOverlay] == 0 && RunNodes(m, outcome)[ProgressContainer] == 0
    ensures RunNodes(m, outcome)[LetterButton] == m[LetterButton]
  {
    ShowOverlayIdempotent(m);
    RemoveOverlayClears(ShownOverlay(m));
    RemoveOverlayClears(RemovedOverlay(ShownOverlay(m)));
  }

  /** Without a usable focus target the run dispatches nothing and changes no focus. */
  lemma NoTargetDispatchesNothing(f0: Focus, focusable: Option<Element>, render: nat -> Snapshot)
    requires !f0.Present() || f0.Body?
    requires focusable.None?
    ensures RunOutcome(f0, focusable, render) == NoFocusTarget
    ensures RunEntries(f0, focusable, render) == [] && RunFocus(f0, focusable, render) == f0
  {
  }

  /** When the locator gives up, the Ctrl+0 triple is all the run dispatches: no key or paste event follows step 2. */
  lemma AbortStopsAfterLocator(f0: Focus, focusable: Option<Element>, render: nat -> Snapshot)
    requires RunTarget(f0, focusable).Some?
    requires FirstHit(render).None?
    ensures RunOutcome(f0, focusable, render) == Aborted
    ensures Dispatched(RunEntries(f0, focusable, render)) == Dispatched(Ctrl0Entries(true))
  {
    var es := Ctrl0Entries(true) + LocateEntries(render) + [];
    assert RunEntries(f0, focusable, render) == Ctrl0Entries(true) + LocateEntries(render);
    DispatchedAppend(Ctrl0Entries(true), LocateEntries(render));
    LocateDispatchesOnlyTheClick(render);
  }

  /** The events a run emits under its overlay: the Ctrl+0 triple, then on success the click and the script. */
  lemma CompletedRunDispatches(f0: Focus, focusable: Option<Element>, render: nat -> Snapshot)
    requires RunTarget(f0, focusable).Some?
    requires FirstHit(render).Some?
    ensures var f := RunTarget(f0, focusable).value;
      Dispatched(RunEntries(f0, focusable, render)) ==
        Dispatched(Ctrl0Entries(true)) + [AttemptClick(render(FirstHit(render).value)).value] +
        Dispatched(TailEntries(f))
  {
    var f := RunTarget(f0, focusable).value;
    DispatchedAppend(Ctrl0Entries(true) + LocateEntries(render), TailEntries(f));
    DispatchedAppend(Ctrl0Entries(true), LocateEntries(render));
    LocateDispatchesOnlyTheClick(render);
  }

  /**
   * Event count of a completed run: the Ctrl+0 triple, the one click, then 29 key triples, and
   * the input and change events when the target is a field.
   */
  lemma CompletedRunCount(f0: Focus, focusable: Option<Element>, render: nat -> Snapshot)
    requires RunTarget(f0, focusable).Some?
    requires FirstHit(render).Some?
    ensures |Dispatched(RunEntries(f0, focusable, render))| ==
      91 + if IsField(RunTarget(f0, focusable).value) then 2 else 0
  {
    CompletedRunDispatches(f0, focusable, render);
    Ctrl0Dispatches();
    TailCount(RunTarget(f0, focusable).value);
  }

  // ----- The page -----

  class Page {
    /** The script's own nodes present in the document, by id (an id may occur more than once). */
    var nodes: multiset<NodeId>
    /** Whether the host toolbar (ul.sp-toolbar) is rendered. */
    var toolbar: bool
    /** document.activeElement. */
    var active: Focus
    /** Everything dispatched and awaited so far. */
    var log: seq<Entry>

    constructor (nodes0: multiset<NodeId>, toolbar0: bool, active0: Focus)
      ensures nodes == nodes0 && toolbar == toolbar0 && active == active0 && log == []
    {
      nodes, toolbar, active, log := nodes0, toolbar0, active0, [];
    }

    /** sleep(ms): recorded, not timed. */
    method Sleep(ms: int)
      modifies this`log
      ensures log == old(log) + [Delay(SleepDuration(ms))]
    {
      log := log + [Delay(SleepDuration(ms))];
    }

    /** dispatchKey(el, type, key, code, keyCode, options). */
    method DispatchKey(kind: KeyKind, key: string, code: string, keyCode: int, opts: KeyOptions)
      modifies this`log
      ensures log == old(log) + [KeyEvent(kind, KeyInfo(key, code, keyCode), opts)]
    {
      log := log + [KeyEvent(kind, KeyInfo(key, code, keyCode), opts)];
    }

    /** simulateKeyPress(keyName, target, delay, modifiers). */
    method SimulateKeyPress(keyName: string, target: Focus, delay: int, opts: KeyOptions)
      modifies this`log
      ensures log == old(log) + KeyPressEntries(keyName, target.Present(), delay, opts)
    {
      if !target.Present() {
        return;
      }
      if keyName !in KeyTable {
        return;
      }
      var info := KeyTable[keyName];
      DispatchKey(KeyDown, info.key, info.code, info.keyCode, opts);
      Sleep(delay);
      DispatchKey(KeyPress, info.key, info.code, info.keyCode, opts);
      Sleep(delay);
      DispatchKey(KeyUp, info.key, info.code, info.keyCode, opts);
      Sleep(delay);
    }

    /** pressKey(key, times): `times` presses at the active element, a long sleep after each. */
    method PressKey(keyName: string, times: int)
      modifies this`log
      ensures log == old(log) + PressKeyEntries(keyName, active.Present(), times)
    {
      var i := 0;
      while i < times
        invariant 0 <= i && (times >= 0 ==> i <= times) && (times < 0 ==> i == 0)
        invariant log == old(log) + PressKeyEntries(keyName, active.Present(), i)
      {
        SimulateKeyPress(keyName, active, SleepDefaultMs, NoOptions);
        Sleep(SleepLongMs);
        assert PressKeyEntries(keyName, active.Present(), i + 1) ==
          PressKeyEntries(keyName, active.Present(), i) + (KeyPressEntries(keyName, active.Present(), SleepDefaultMs, NoOptions) + [Delay(SleepLongMs)]);
        i := i + 1;
      }
    }

    method PressEnter(times: int)
      modifies this`log
      ensures log == old(log) + PressKeyEntries("Enter", active.Present(), times)
    {
      PressKey("Enter", times);
    }

    method PressTab(times: int)
      modifies this`log
      ensures log == old(log) + PressKeyEntries("Tab", active.Present(), times)
    {
      PressKey("Tab", times);
    }

    method PressArrowRight(times: int)
      modifies this`log
      ensures log == old(log) + PressKeyEntries("ArrowRight", active.Present(), times)
    {
      PressKey("ArrowRight", times);
    }

    method PressSpace(times: int)
      modifies this`log
      ensures log == old(log) + PressKeyEntries("Space", active.Present(), times)
    {
      PressKey("Space", times);
    }

    /** pressCtrl0: '0' with ctrlKey held at the active element, then a very long sleep. */
    method PressCtrl0()
      modifies this`log
      ensures log == old(log) + Ctrl0Entries(active.Present())
    {
      var target := active;
      SimulateKeyPress("0", target, SleepDefaultMs, CtrlHeld);
      Sleep(SleepVeryLongMs);
    }

    /** pasteText(text) into the active element. */
    method PasteText(text: string)
      modifies this`log, this`active
      ensures active == Pasted(old(active), text)
      ensures log == old(log) + PasteEntries(old(active), text)
    {
      var target := active;
      if !target.Present() {
        return;
      }
      if IsField(target) {
        active := On(target.el.(value := text));
        log := log + [Input];
        log := log + [Change];
        Sleep(SleepDefaultMs);
      }
    }

    /** pressBackspace: clears a focused field; with no active element reading its tag name throws. */
    method PressBackspace() returns (threw: bool)
      modifies this`log, this`active
      ensures threw <==> !old(active).Present()
      ensures active == Pasted(old(active), "")
      ensures log == old(log) + ClearEntries(old(active))
    {
      if !active.Present() {
        return true;
      }
      threw := false;
      if IsField(active) {
        active := On(active.el.(value := ""));
        log := log + [Input];
        log := log + [Change];
        Sleep(2 * SleepDefaultMs);
      }
    }

    method ShowLoadingOverlay()
      modifies this`nodes
      ensures nodes == ShownOverlay(old(nodes))
    {
      if nodes[BlurOverlay] > 0 {
        return;
      }
      nodes := nodes + multiset{BlurOverlay, ProgressContainer};
    }

    method RemoveLoadingOverlay()
      modifies this`nodes
      ensures nodes == RemovedOverlay(old(nodes))
    {
      if nodes[BlurOverlay] > 0 {
        nodes := nodes - multiset{BlurOverlay};
      }
      if nodes[ProgressContainer] > 0 {
        nodes := nodes - multiset{ProgressContainer};
      }
    }

    /** One pass of the locator: click the first candidate that matches, skipping those whose click throws. */
    method ClickFirstMatching(cs: seq<Candidate>, path: ClickPath) returns (clicked: bool)
      modifies this`log
      ensures clicked == FirstClickable(cs).Some?
      ensures log == old(log) + if clicked then [Click(path, FirstClickable(cs).value), Delay(SleepVeryLongMs)] else []
    {
      clicked := false;
      var i := 0;
      while i < |cs|
        invariant 0 <= i <= |cs|
        invariant FirstClickable(cs) == FirstFrom(ClicksAt(cs), i, |cs|)
        invariant log == old(log)
      {
        if Matches(cs[i]) {
          if !cs[i].clickThrows {
            assert ClicksAt(cs)(i);
            log := log + [Click(path, i)];
            clicked := true;
            Sleep(SleepVeryLongMs);
            break;
          }
        }
        assert !ClicksAt(cs)(i);
        i := i + 1;
      }
    }

    /** One attempt of the locator: the buttons pass, then the text-node pass if the first clicked nothing. */
    method AttemptOnce(page: Snapshot) returns (clicked: bool)
      modifies this`log
      ensures clicked == AttemptHits(page)
      ensures log == old(log) + if clicked then [AttemptClick(page).value, Delay(SleepVeryLongMs)] else []
    {
      clicked := ClickFirstMatching(page.buttons, ButtonText);
      if !clicked {
        clicked := ClickFirstMatching(page.elements, TextContent);
      }
    }

    /** findAndClickCollectionDeComptes: up to MAX_RETRIES attempts, stopping at the first click. */
    method FindAndClickCollectionDeComptes(render: nat -> Snapshot) returns (clicked: bool, ghost attempts: nat)
      modifies this`log
      ensures clicked == FirstHit(render).Some?
      ensures attempts == Attempts(render) <= MaxRetries
      ensures log == old(log) + LocateEntries(render)
    {
      clicked := false;
      var retries := 0;
      attempts := 0;
      while !clicked && retries < MaxRetries
        invariant SearchedSoFar(render, retries, clicked)
        invariant attempts == retries + (if clicked then 1 else 0)
        invariant log == old(log) + SearchedEntries(render, retries, clicked)
        decreases MaxRetries - retries, if clicked then 0 else 1
      {
        attempts := attempts + 1;
        clicked, retries := SearchRound(render, retries, old(log));
      }
      SearchEnds(render, retries, clicked);
    }

    /** One pass of the search loop's body: an attempt, then on a miss the retry count and the backoff. */
    method SearchRound(render: nat -> Snapshot, retries: nat, ghost start: seq<Entry>) returns (clicked: bool, next: nat)
      requires retries < MaxRetries && SearchedSoFar(render, retries, false)
      requires log == start + SearchedEntries(render, retries, false)
      modifies this`log
      ensures next == if clicked then retries else retries + 1
      ensures SearchedSoFar(render, next, clicked)
      ensures log == start + SearchedEntries(render, next, clicked)
    {
      SearchStep(render, retries);
      AppendAssoc(start, SearchedEntries(render, retries, false),
                  if AttemptHits(render(retries)) then [AttemptClick(render(retries)).value, Delay(SleepVeryLongMs)]
                  else [Delay(2 * SleepVeryLongMs)]);
      next := retries;
      clicked := AttemptOnce(render(retries));
      if !clicked {
        next := retries + 1;
        Sleep(2 * SleepVeryLongMs);
      }
    }

    /** runKeySequence: the whole scripted run, bracketed by the overlay. */
    method RunKeySequence(focusable: Option<Element>, render: nat -> Snapshot) returns (outcome: Outcome)
      modifies this`nodes, this`log, this`active
      ensures outcome == RunOutcome(old(active), focusable, render)
      ensures log == old(log) + RunEntries(old(active), focusable, render)
      ensures active == RunFocus(old(active), focusable, render)
      ensures nodes == RunNodes(old(nodes), outcome)
    {
      ShowLoadingOverlay();
      outcome := RunBody(focusable, render);
      RemoveLoadingOverlay();  // finally
    }

    /**
     * The try block of runKeySequence: settle the focus target, run the steps, and remove the
     * overlay itself on the two early returns.
     */
    method RunBody(focusable: Option<Element>, render: nat -> Snapshot) returns (outcome: Outcome)
      modifies this`nodes, this`log, this`active
      ensures outcome == RunOutcome(old(active), focusable, render)
      ensures log == old(log) + RunEntries(old(active), focusable, render)
      ensures active == RunFocus(old(active), focusable, render)
      ensures nodes == if outcome == Completed then old(nodes) else RemovedOverlay(old(nodes))
    {
      var target := active;
      if !target.Present() || target.Body? {
        if focusable.None? {
          RemoveLoadingOverlay();
          return NoFocusTarget;
        }
        active := On(focusable.value);
      }
      var clicked := RunSteps(render);
      if !clicked {
        RemoveLoadingOverlay();
        return Aborted;
      }
      outcome := Completed;
    }

    /** Steps 1 to the end of runKeySequence at a present target: Ctrl+0, the locator, then the rest only after a click. */
    method RunSteps(render: nat -> Snapshot) returns (clicked: bool)
      requires active.Present()
      modifies this`log, this`active
      ensures clicked == FirstHit(render).Some?
      ensures log == old(log) + (Ctrl0Entries(true) + LocateEntries(render) + if clicked then TailEntries(old(active)) else [])
      ensures active == if clicked then Pasted(old(active), Codes) else old(active)
    {
      ghost var start, f := log, active;
      // Step 1: Ctrl+0
      PressCtrl0();
      // Step 2: the locator
      ghost var attempts;
      clicked, attempts := FindAndClickCollectionDeComptes(render);
      AppendAssoc(start, Ctrl0Entries(true), LocateEntries(render));
      if !clicked {
        assert Ctrl0Entries(true) + LocateEntries(render) + [] == Ctrl0Entries(true) + LocateEntries(render);
        return;
      }
      FinishSequence();
      AppendAssoc(start, Ctrl0Entries(true) + LocateEntries(render), TailEntries(f));
    }

    /** Steps 3 to the end of runKeySequence, once the locator has clicked. */
    method FinishSequence()
      modifies this`log, this`active
      ensures log == old(log) + TailEntries(old(active))
      ensures active == Pasted(old(active), Codes)
    {
      ghost var start := log;
      PasteSetsValue(active, Codes);
      FillCodes();
      Confirm();
      Close();
      AppendAssoc(start, FillCodesEntries(old(active)) + ConfirmEntries(old(active).Present()), CloseEntries(old(active).Present()));
      AppendAssoc(start, FillCodesEntries(old(active)), ConfirmEntries(old(active).Present()));
    }

    /** Steps 3 to 6: to the accounts field, paste the codes, validate. */
    method FillCodes()
      modifies this`log, this`active
      ensures log == old(log) + FillCodesEntries(old(active))
      ensures active == Pasted(old(active), Codes)
    {
      ghost var start, p := log, active.Present();
      PasteSetsValue(active, Codes);
      PressTab(6);
      PressArrowRight(1);
      PasteText(Codes);
      PressEnter(1);
      AppendAssoc4(start, PressKeyEntries("Tab", p, 6), PressKeyEntries("ArrowRight", p, 1), PasteEntries(old(active), Codes),
                   PressKeyEntries("Enter", p, 1));
    }

    /** The walk to the confirmation. */
    method Confirm()
      modifies this`log
      ensures log == old(log) + ConfirmEntries(active.Present())
    {
      ghost var start, p := log, active.Present();
      PressTab(9);
      PressEnter(1);
      PressEnter(3);
      PressTab(2);
      PressEnter(1);
      AppendAssoc4(start, PressKeyEntries("Tab", p, 9), PressKeyEntries("Enter", p, 1), PressKeyEntries("Enter", p, 3),
                   PressKeyEntries("Tab", p, 2));
      AppendAssoc(start, PressKeyEntries("Tab", p, 9) + PressKeyEntries("Enter", p, 1) + PressKeyEntries("Enter", p, 3) +
                  PressKeyEntries("Tab", p, 2), PressKeyEntries("Enter", p, 1));
    }

    /** The closing wait and keys. */
    method Close()
      modifies this`log
      ensures log == old(log) + CloseEntries(active.Present())
    {
      ghost var start, p := log, active.Present();
      Sleep(2000);
      PressTab(4);
      PressEnter(1);
      AppendAssoc(start, [Delay(2000)] + PressKeyEntries("Tab", p, 4), PressKeyEntries("Enter", p, 1));
      AppendAssoc(start, [Delay(2000)], PressKeyEntries("Tab", p, 4));
    }

    /** addEditionButton. */
    method AddEditionButton()
      modifies this`nodes
      ensures nodes == WithButton(old(nodes), toolbar)
    {
      if nodes[LetterButton] > 0 {
        return;
      }
      if !toolbar {
        return;
      }
      nodes := nodes + multiset{LetterButton};
    }

    /**
     * The button's click handler: closeEditionTabs, then run only if the Saisie tab is active.
     * Both gates are supplied by the host: whether closeEditionTabs calls back, and the predicate's answer.
     */
    method OnLetterButtonClick(callsBack: bool, saisieActive: bool, focusable: Option<Element>, render: nat -> Snapshot)
      returns (outcome: Option<Outcome>)
      modifies this`nodes, this`log, this`active
      ensures callsBack && saisieActive ==>
        (outcome == Some(RunOutcome(old(active), focusable, render)) &&
         log == old(log) + RunEntries(old(active), focusable, render) &&
         active == RunFocus(old(active), focusable, render) &&
         nodes == RunNodes(old(nodes), outcome.value))
      ensures !(callsBack && saisieActive) ==>
        (outcome == None && log == old(log) && active == old(active) && nodes == old(nodes))
    {
      outcome := None;
      if callsBack {
        if saisieActive {
          var o := RunKeySequence(focusable, render);
          outcome := Some(o);
        }
      }
    }

    /** ensureButtonIsPresent's first move: wait, then try once. */
    method EnsureButtonIsPresent() returns (retries: nat)
      modifies this`nodes, this`log
      ensures retries == 0
      ensures nodes == WithButton(old(nodes), toolbar)
      ensures log == old(log) + [Delay(SleepVeryLongMs)]
    {
      retries := 0;
      Sleep(SleepVeryLongMs);
      AddEditionButton();
    }

    /** One MutationObserver callback, run to completion: re-inject while under the retry ceiling. */
    method ObserverTick(retries: nat) returns (next: nat, disconnected: bool)
      modifies this`nodes, this`log
      ensures disconnected <==> retries >= MaxRetries
      ensures var acts := !disconnected && old(toolbar) && old(nodes)[LetterButton] == 0;
        (acts ==> next == retries + 1 && nodes == WithButton(old(nodes), toolbar) && log == old(log) + [Delay(SleepLongMs)]) &&
        (!acts ==> next == retries && nodes == old(nodes) && log == old(log))
      ensures retries <= MaxRetries ==> next <= MaxRetries
    {
      next := retries;
      if retries >= MaxRetries {
        disconnected := true;
        return;
      }
      disconnected := false;
      if toolbar && nodes[LetterButton] == 0 {
        Sleep(SleepLongMs);
        AddEditionButton();
        next := retries + 1;
      }
    }

    /** One setInterval callback, run to completion: stop once a button exists or the budget is spent, else retry. */
    method IntervalTick(retries: nat) returns (next: nat, stopped: bool)
      modifies this`nodes, this`log
      ensures stopped <==> retries >= MaxRetries || old(nodes)[LetterButton] > 0
      ensures stopped ==> next == retries && nodes == old(nodes) && log == old(log)
      ensures !stopped ==>
        (next == retries + 1 && nodes == WithButton(old(nodes), toolbar) && log == old(log) + [Delay(SleepLongMs)])
      ensures retries <= MaxRetries ==> next <= MaxRetries
    {
      next := retries;
      if retries >= MaxRetries || nodes[LetterButton] > 0 {
        stopped := true;
        return;
      }
      stopped := false;
      Sleep(SleepLongMs);
      AddEditionButton();
      next := retries + 1;
    }
  }
}
