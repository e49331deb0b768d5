# Autolettrage control core, in Dafny

Autolettrage is a userscript that adds an "AutoLettrage" button to the toolbar of an accounting
web application. Clicking the button replays a fixed sequence of key presses and a paste into the
page, with a loading overlay shown for the duration of the run. This project models the script's
control core over an abstract page:

- the ids of the script's own nodes (`blurOverlay`, `progressContainer`, `letterButton`), as a
  multiset, so that a second copy of an id can be noticed;
- whether the host toolbar is rendered;
- the focused element, as a tag name and a value;
- an append-only trace of everything the script dispatches (key, input, change and click events)
  and of every `sleep` it awaits (a `Delay` entry).

The code is imperative, and so is the model. `Autolettrage.Page` is a class with those four
fields. Each function of the script is a method that appends to the trace or updates the nodes and
the focus. Each method is specified by a pure function of the old state (`PressKeyEntries`,
`LocateEntries`, `RunEntries`, `ShownOverlay`, …), and the promised properties are lemmas about those
functions.

Modules:
- `Wrappers`: `Option`.
- `JsText`: `String.prototype.trim`, with ECMAScript's white-space and line-terminator set.
- `Events`: the trace entries, `sleep`'s duration, and the filter that keeps only dispatched events.
- `Keys`: `KEY_INFO`, the `KeyboardEvent` that `dispatchKey` builds, and the traces of
  `simulateKeyPress`, `pressKey` and `pressCtrl0`.
- `Locator`: the retry search for the "Collection de comptes :" control. The document each attempt
  enumerates is given as `render(i)`: its button-like candidates and all its elements, each with
  its text and whether clicking it throws.
- `Autolettrage`: the overlay, the button injection, field editing, the run sequencer and the class
  `Page`.

## Model

| member | source | states |
|---|---|---|
| Events.SleepDuration | Autolettrage.js:26-30 | sleep waits the requested time, or the 20 ms default for a negative request |
| Events.Dispatched | Autolettrage.js:38-52 | the dispatched events of a trace hold no delay and are never more than the trace's entries |
| Events.DispatchedMembers | Autolettrage.js:38-52 | the dispatched events of a trace are exactly its entries that are not delays |
| Events.DispatchedSingle | Autolettrage.js:38-52 | a single entry is dispatched exactly when it is not a delay |
| Events.DispatchedAppend | Autolettrage.js:54-71 | the events of consecutive trace pieces are the pieces' events in the same order |
| Events.DispatchedRepeat | Autolettrage.js:93-98 | the events of a repeated trace piece are that piece's events repeated |
| Events.RepeatAt | Autolettrage.js:93-98 | the j-th element of the k-th copy of a repeated piece is the piece's j-th element |
| Keys.KeyTableNames | Autolettrage.js:10-16 | KEY_INFO has exactly the keys Enter, ArrowRight, Tab, 0 and Space, no two with the same keyCode, each its own `key` except Space, whose key is " " |
| Keys.KeyPressEntriesAsWritten | Autolettrage.js:54-71 | simulateKeyPress with the `in` guard as written: nothing without a target or for a name the guard rejects, else six entries, keydown, keypress and keyup at 0, 2 and 4, each followed by the sanitised delay; for a name KEY_INFO only inherits, the keydown gets key "" and keyCode 0 |
| Keys.KeyPressAsWrittenDispatches | Autolettrage.js:54-71 | as written, simulateKeyPress dispatches keydown, keypress and keyup whenever it has a target and the `in` guard passes: the table's triple for a key KEY_INFO owns, key "", code "" and keyCode 0 for an inherited name; nothing otherwise |
| Keys.KeyEventFidelity | Autolettrage.js:38-48 | with only modifiers passed, the event carries KEY_INFO's key, code and keyCode, `which = keyCode`, bubbles and cancelable true, and ctrlKey only if requested |
| Keys.KeyPressDispatches | Autolettrage.js:54-71 | simulateKeyPress dispatches keydown, keypress, keyup for the table's key when it has a target and KEY_INFO has the key, and nothing otherwise |
| Keys.PressKeyDispatches | Autolettrage.js:93-98 | pressKey(key, times) dispatches exactly `times` copies of the key's triple, and nothing when times <= 0 or the key is unknown (with the corrected own-key guard; see Findings) |
| Keys.PressKeyCount | Autolettrage.js:93-98 | pressKey of a known key at a target dispatches 3 * times events |
| Keys.PressKeyOrder | Autolettrage.js:93-98 | the k-th press is keydown, keypress, keyup in that order, with the table's key, code and keyCode |
| Keys.Ctrl0Dispatches | Autolettrage.js:116-121 | pressCtrl0 dispatches one '0' triple (code Digit0, keyCode 48) with ctrlKey true |
| Keys.InheritedNameSlipsThrough | Autolettrage.js:59-70 | as written, the `in` guard lets "toString" through and a blank keydown, keypress and keyup (key "", code "", keyCode 0) are dispatched; the corrected lookup dispatches nothing |
| Keys.GuardsAgreeOnTable | Autolettrage.js:59-63 | the guard as written and the corrected one agree on every key KEY_INFO really has |
| JsText.Trim | Autolettrage.js:136 | the trimmed text is no longer than the text and starts and ends with no white space |
| JsText.TrimPadded | Autolettrage.js:136 | trimming recovers any text that has no white space at its ends from any white-space padding |
| JsText.TrimIdempotent | Autolettrage.js:136 | trimming twice gives what trimming once gives |
| Locator.FirstFrom | Autolettrage.js:134-147 | the index found lies in range and satisfies the predicate |
| Locator.FirstFromIsFirst | Autolettrage.js:134-147 | no earlier index satisfies the predicate, and none at all when nothing is found |
| Locator.AttemptHitsIff | Autolettrage.js:130-165 | an attempt clicks exactly when its button pass or its text-content pass has a matching candidate whose click does not throw |
| Locator.FoundIff | Autolettrage.js:123-179 | the search succeeds exactly when some attempt below MAX_RETRIES can click |
| Locator.Attempts | Autolettrage.js:127 | the search makes between 1 and MAX_RETRIES attempts |
| Locator.AttemptsStopAtFirstHit | Autolettrage.js:127-171 | every attempt before the last one missed, and the last one clicked exactly when the search succeeds, so no attempt runs after a click |
| Locator.SearchStep | Autolettrage.js:127-171 | one round of the loop either stops at the first hit with the click and a 500 ms settle, or adds one 1000 ms backoff |
| Locator.SearchEnds | Autolettrage.js:173-178 | when the loop exits, the result, the attempt count and the trace are the specified ones |
| Locator.LocateDispatchesOnlyTheClick | Autolettrage.js:123-179 | the search dispatches no key or field event: the one click when it succeeds, nothing when it fails |
| Locator.BackoffCount | Autolettrage.js:127-170 | the trace holds exactly one 1000 ms backoff per failed attempt, so at most MAX_RETRIES, and otherwise only the click and its settle delay |
| Locator.PaddedLabelMatches | Autolettrage.js:136 | text content padded with white space matches the label |
| Locator.RenderedHits | Autolettrage.js:134-147 | a button without label text is skipped and the next one that matches is clicked |
| Locator.LateRenderIsFoundAtFourthAttempt | Autolettrage.js:123-179 | a control that appears at the 4th enumeration is clicked at attempt 4, after exactly three backoffs |
| Locator.ThrowingClickIsSkipped | Autolettrage.js:137-144 | a match whose click throws is passed over for the next match |
| Locator.NeverRenderedExhausts | Autolettrage.js:123-179 | a control that never appears costs MAX_RETRIES attempts and ten backoffs, then failure |
| Autolettrage.ShowOverlayIdempotent | Autolettrage.js:199-200 | showing twice is showing once, leaves exactly one overlay on a well-formed page, and leaves the button alone |
| Autolettrage.RemoveOverlayClears | Autolettrage.js:259-265 | on a page with at most one blurOverlay and no progressContainer without one (`OverlayWellFormed`), removing leaves neither overlay id, is a no-op when both are absent, is idempotent, and leaves the button alone |
| Autolettrage.AddButtonIdempotent | Autolettrage.js:345-356 | any n >= 1 injections leave the page as one does: one button added if none existed and the toolbar is there, else nothing |
| Autolettrage.AtMostOneButton | Autolettrage.js:345-379 | injection never makes a second button and never touches the overlay |
| Autolettrage.PasteSetsValue | Autolettrage.js:73-91 | on an INPUT or TEXTAREA the value becomes the text, then input and change are dispatched once each; on anything else nothing changes and nothing is dispatched |
| Autolettrage.ClearEmptiesField | Autolettrage.js:181-196 | on a field the value becomes '' and input then change are dispatched; on anything else nothing happens |
| Autolettrage.FillCodesCount | Autolettrage.js:298-312 | steps 3 to 6 dispatch 24 key events, plus input and change on a field |
| Autolettrage.ConfirmCount | Autolettrage.js:314-318 | the walk to the confirmation dispatches 48 key events |
| Autolettrage.CloseCount | Autolettrage.js:319-321 | the closing steps dispatch 15 key events |
| Autolettrage.TailCount | Autolettrage.js:298-321 | steps 3 to the end dispatch 87 key events, plus input and change on a field |
| Autolettrage.RunTearsDownOverlay | Autolettrage.js:268-331 | on a page with at most one blurOverlay and no progressContainer without one (`OverlayWellFormed`), whatever the outcome, no overlay node is left after a run, and the button is untouched |
| Autolettrage.NoTargetDispatchesNothing | Autolettrage.js:273-279 | with no focus target and no focusable element, the run ends at once, dispatches nothing and changes no focus |
| Autolettrage.AbortStopsAfterLocator | Autolettrage.js:288-296 | when the locator fails, the Ctrl+0 triple is all the run dispatches: no key or paste event after step 2 |
| Autolettrage.CompletedRunDispatches | Autolettrage.js:284-321 | a completed run dispatches the Ctrl+0 triple, the locator's one click, then the events of steps 3 to the end, in that order |
| Autolettrage.CompletedRunCount | Autolettrage.js:284-321 | a completed run dispatches 91 events, or 93 when the target is a field |
| Autolettrage.Page.Sleep | Autolettrage.js:26-36 | appends one delay of sleep's duration |
| Autolettrage.Page.DispatchKey | Autolettrage.js:38-52 | appends one key event built from the key, code, keyCode and options |
| Autolettrage.Page.SimulateKeyPress | Autolettrage.js:54-71 | appends exactly the key-press trace: the triple with delays, or nothing (with the corrected own-key guard; see Findings) |
| Autolettrage.Page.PressKey | Autolettrage.js:93-98 | the loop appends `times` presses, each followed by a 100 ms sleep (with the corrected own-key guard; see Findings) |
| Autolettrage.Page.PressEnter | Autolettrage.js:100-102 | pressKey('Enter', times) |
| Autolettrage.Page.PressTab | Autolettrage.js:104-106 | pressKey('Tab', times) |
| Autolettrage.Page.PressArrowRight | Autolettrage.js:108-110 | pressKey('ArrowRight', times) |
| Autolettrage.Page.PressSpace | Autolettrage.js:112-114 | pressKey('Space', times) |
| Autolettrage.Page.PressCtrl0 | Autolettrage.js:116-121 | appends the Ctrl+0 trace at the focused element |
| Autolettrage.Page.PasteText | Autolettrage.js:73-91 | sets a field's value and appends input, change and a 20 ms sleep; leaves anything else alone |
| Autolettrage.Page.PressBackspace | Autolettrage.js:181-196 | empties a field and appends input, change and a 40 ms sleep; throws exactly when nothing is focused |
| Autolettrage.Page.ShowLoadingOverlay | Autolettrage.js:199-257 | adds both overlay nodes unless a blurOverlay exists |
| Autolettrage.Page.RemoveLoadingOverlay | Autolettrage.js:259-265 | removes the first node with each overlay id, if there is one |
| Autolettrage.Page.ClickFirstMatching | Autolettrage.js:134-147 | clicks the first candidate that matches and does not throw, and reports whether it clicked |
| Autolettrage.Page.AttemptOnce | Autolettrage.js:130-165 | one attempt: the button pass, then the text-content pass only if the first clicked nothing |
| Autolettrage.Page.SearchRound | Autolettrage.js:127-171 | one pass of the loop body keeps the search's trace and position in step with its specification |
| Autolettrage.Page.FindAndClickCollectionDeComptes | Autolettrage.js:123-179 | returns true exactly when some attempt can click, makes `Attempts(render)` <= MAX_RETRIES attempts, and appends the specified trace |
| Autolettrage.Page.RunKeySequence | Autolettrage.js:268-331 | the outcome, trace, focus and nodes of a run are the specified ones, with the overlay shown first and removed in `finally` |
| Autolettrage.Page.RunBody | Autolettrage.js:269-327 | the try block: settles the focus target, runs the steps, and removes the overlay on the two early returns |
| Autolettrage.Page.RunSteps | Autolettrage.js:284-321 | Ctrl+0, the locator, then steps 3 to the end only if the locator clicked |
| Autolettrage.Page.FinishSequence | Autolettrage.js:298-321 | appends the trace of steps 3 to the end; only the paste changes the focused element |
| Autolettrage.Page.FillCodes | Autolettrage.js:298-312 | Tab x6, ArrowRight, paste the codes, Enter |
| Autolettrage.Page.Confirm | Autolettrage.js:314-318 | Tab x9, Enter, Enter x3, Tab x2, Enter |
| Autolettrage.Page.Close | Autolettrage.js:319-321 | a 2000 ms sleep, Tab x4, Enter |
| Autolettrage.Page.AddEditionButton | Autolettrage.js:345-379 | adds one #letterButton only when none exists and the toolbar is rendered |
| Autolettrage.Page.OnLetterButtonClick | Autolettrage.js:381-390 | runs the sequence only when closeEditionTabs calls back and the Saisie tab is active; otherwise changes nothing |
| Autolettrage.Page.EnsureButtonIsPresent | Autolettrage.js:395-399 | waits 500 ms, then makes one injection attempt with the retry count at 0 |
| Autolettrage.Page.ObserverTick | Autolettrage.js:401-414 | disconnects at MAX_RETRIES; else re-injects and counts a retry only when the toolbar is there and no button is; never passes the ceiling |
| Autolettrage.Page.IntervalTick | Autolettrage.js:422-433 | stops once a button exists or MAX_RETRIES is reached; else re-injects and counts a retry; never passes the ceiling |

## Left out

- Real time. `sleep` is a `Delay` entry in the trace; no timer runs, and the 2000 ms period of the `setInterval` poll is not modelled.
- Concurrency. The MutationObserver and setInterval callbacks of ensureButtonIsPresent are modelled as one sequential tick each (`ObserverTick`, `IntervalTick`). Interleavings across their `await`s are not modelled. In such an interleaving the shared retry count can go past MAX_RETRIES. Likewise the click handler starts `runKeySequence()` without awaiting it (line 385), so a second activation during a run, for instance from the keyboard since the overlay only blocks the pointer, would interleave with the first run; `OnLetterButtonClick` runs each run to completion.
- `init`, `document.readyState` and the DOMContentLoaded wiring (lines 437-447) are I/O plumbing and are not modelled.
- The overlay's and the button's CSS and `innerHTML` (lines 201-253, 363-376), and all `console.*` logging, are not modelled.
- Selectors. `querySelectorAll` and the literal selector strings are abstracted. Each attempt of the locator receives its candidates as a snapshot. The fallback focus target of runKeySequence (line 274) is a parameter. The toolbar's presence is a field.
- `closeEditionTabs` and `isActiveTabSaisie` (lines 333-343) are placeholders in the source. They are parameters of `OnLetterButtonClick`.
- Autolettrage.Page.RunKeySequence: the run's third outcome, leaving through the `catch` at lines 326-327 after an exception, is not modelled. Several calls in the `try` have no handler of their own (`document.body.append` at line 255, `target.focus()` at 280, the locator's `querySelectorAll` and `querySelector` at 131, 135 and 151, and `sleep`), but none of them throws on a page that has a body, which is the page the model describes; `dispatchEvent` and the value assignment are taken not to throw either. On every modelled path the `finally` removal runs, and `RunTearsDownOverlay` covers each of them.
- Reactions of the host page to the synthetic events are not modelled. Examples are focus moving on Tab, or a re-render between attempts except through `render`. The focused element changes only through the script itself.
- `target.focus()` is assumed to make the fallback element the active element.
- The code removes the overlay twice on the two early returns (lines 277 and 294, then 329 in `finally`). The model follows the code (`RunNodes`); removal is idempotent, and `RunTearsDownOverlay` proves the second call harmless.
- Autolettrage.Page.FindAndClickCollectionDeComptes: the attempt count is a ghost out-parameter. The source has no such value; it is there only to state the retry ceiling.
- CODES.SECOND (line 7) is never used by the script and is not modelled.

## Findings

| source | as written | input that shows it | evidently intended | confidence | as-written member | corrected member |
|---|---|---|---|---|---|---|
| Autolettrage.js:59 | `keyName in KEY_INFO` also accepts names KEY_INFO inherits from Object.prototype. `KEY_INFO[keyName].key`, `.code` and `.keyCode` are then undefined, and keydown, keypress and keyup are dispatched with key "", code "" and keyCode 0 | `simulateKeyPress("toString")` with a focused element | reject every name that is not an own key of KEY_INFO and dispatch nothing | not executed | Keys.InheritedNameSlipsThrough | Keys.KeyPressDispatches |
