/** KEY_INFO and the synthetic keyboard events built from it (dispatchKey, simulateKeyPress, pressKey). */
module Keys {
  import opened Wrappers
  import opened Events

  /** What a real browser event carries for a key: logical key, physical code, legacy numeric code. */
  datatype KeyInfo = KeyInfo(key: string, code: string, keyCode: int)

  /** KEY_INFO: the only key names the script can press. */
  const KeyTable: map<string, KeyInfo> := map[
    "Enter" := KeyInfo("Enter", "Enter", 13),
    "ArrowRight" := KeyInfo("ArrowRight", "ArrowRight", 39),
    "Tab" := KeyInfo("Tab", "Tab", 9),
    "0" := KeyInfo("0", "Digit0", 48),
    "Space" := KeyInfo(" ", "Space", 32)
  ]

  /**
   * KEY_INFO names exactly the five keys the script presses; each keyCode is distinct, and every
   * key but Space is its own `key` (Space's is the space character).
   */
  lemma KeyTableNames()
    ensures KeyTable.Keys == {"Enter", "ArrowRight", "Tab", "0", "Space"}
    ensures forall a, b :: a in KeyTable && b in KeyTable && a != b ==> KeyTable[a].keyCode != KeyTable[b].keyCode
    ensures forall n :: n in KeyTable ==> KeyTable[n].key == if n == "Space" then " " else n
  {
  }

  /**
   * The caller's `options`/`modifiers` object: each property it sets is spread over the
   * defaults dispatchKey builds, so any of them may be overridden.
   */
  datatype KeyOptions = KeyOptions(
    key: Option<string>, code: Option<string>, keyCode: Option<int>, which: Option<int>,
    bubbles: Option<bool>, cancelable: Option<bool>, ctrlKey: Option<bool>)
  {
    /** Only modifier flags: none of the defaults dispatchKey sets is overridden. */
    predicate ModifiersOnly() {
      key.None? && code.None? && keyCode.None? && which.None? && bubbles.None? && cancelable.None?
    }
  }

  /** `{}`, what pressKey passes. */
  const NoOptions := KeyOptions(None, None, None, None, None, None, None)

  /** `{ ctrlKey: true }`, what pressCtrl0 passes. */
  const CtrlHeld := NoOptions.(ctrlKey := Some(true))

  /**
   * The KeyboardEvent dispatchKey dispatches: `key`, `code`, `keyCode`, `which: keyCode`,
   * `bubbles: true`, `cancelable: true`, then `...options`; ctrlKey is false unless given.
   */
  function KeyEvent(kind: KeyKind, info: KeyInfo, opts: KeyOptions): Entry {
    Key(kind, opts.key.GetOr(info.key), opts.code.GetOr(info.code), opts.keyCode.GetOr(info.keyCode),
        opts.which.GetOr(info.keyCode), opts.bubbles.GetOr(true), opts.cancelable.GetOr(true),
        opts.ctrlKey.GetOr(false))
  }

  /** Event fidelity: with only modifiers requested, the event carries the table's triple and the browser defaults. */
  lemma KeyEventFidelity(kind: KeyKind, info: KeyInfo, opts: KeyOptions)
    requires opts.ModifiersOnly()
    ensures var e := KeyEvent(kind, info, opts);
      e.Key? && e.kind == kind && e.key == info.key && e.code == info.code &&
      e.keyCode == info.keyCode && e.which == info.keyCode && e.bubbles && e.cancelable &&
      e.ctrlKey == (opts.ctrlKey == Some(true))
  {
  }

  /** The three events of one press of `info`, in dispatch order. */
  function KeyTriple(info: KeyInfo, opts: KeyOptions): seq<Entry> {
    [KeyEvent(KeyDown, info, opts), KeyEvent(KeyPress, info, opts), KeyEvent(KeyUp, info, opts)]
  }

  /**
   * The trace of simulateKeyPress(keyName, target, delay, modifiers): nothing when there is no
   * target or the key is not in KEY_INFO; otherwise keydown, keypress, keyup, each followed by a sleep.
   */
  function KeyPressEntries(keyName: string, hasTarget: bool, delay: int, opts: KeyOptions): seq<Entry> {
    if !hasTarget || keyName !in KeyTable then []
    else
      var info := KeyTable[keyName];
      var d := Delay(SleepDuration(delay));
      [KeyEvent(KeyDown, info, opts), d, KeyEvent(KeyPress, info, opts), d, KeyEvent(KeyUp, info, opts), d]
  }

  /** simulateKeyPress dispatches exactly the key's triple when it has a target and knows the key, and nothing otherwise. */
  lemma KeyPressDispatches(keyName: string, hasTarget: bool, delay: int, opts: KeyOptions)
    ensures Dispatched(KeyPressEntries(keyName, hasTarget, delay, opts)) ==
      if hasTarget && keyName in KeyTable then KeyTriple(KeyTable[keyName], opts) else []
  {
    if hasTarget && keyName in KeyTable {
      var info := KeyTable[keyName];
      var d := Delay(SleepDuration(delay));
      var down, press, up := KeyEvent(KeyDown, info, opts), KeyEvent(KeyPress, info, opts), KeyEvent(KeyUp, info, opts);
      assert KeyPressEntries(keyName, hasTarget, delay, opts) == [down, d] + [press, d] + [up, d];
      DispatchedAppend([down, d] + [press, d], [up, d]);
      DispatchedAppend([down, d], [press, d]);
      assert Dispatched([down, d]) == [down];
      assert Dispatched([press, d]) == [press];
      assert Dispatched([up, d]) == [up];
    }
  }

  /** The trace of pressKey(keyName, times): `times` presses at the active element, each followed by a long sleep. */
  function PressKeyEntries(keyName: string, hasTarget: bool, times: int): seq<Entry> {
    Repeat(KeyPressEntries(keyName, hasTarget, SleepDefaultMs, NoOptions) + [Delay(SleepLongMs)], times)
  }

  /** pressKey dispatches `times` copies of the key's triple, in order, and nothing when `times <= 0`. */
  lemma PressKeyDispatches(keyName: string, hasTarget: bool, times: int)
    ensures Dispatched(PressKeyEntries(keyName, hasTarget, times)) ==
      Repeat(if hasTarget && keyName in KeyTable then KeyTriple(KeyTable[keyName], NoOptions) else [], times)
  {
    var press := KeyPressEntries(keyName, hasTarget, SleepDefaultMs, NoOptions);
    DispatchedRepeat(press + [Delay(SleepLongMs)], times);
    DispatchedAppend(press, [Delay(SleepLongMs)]);
    KeyPressDispatches(keyName, hasTarget, SleepDefaultMs, NoOptions);
    assert Dispatched([Delay(SleepLongMs)]) == [];
    assert Dispatched(press) + [] == Dispatched(press);
  }

  /** Event count: a key the table knows, pressed `times` times at a target, gives 3 * times events. */
  lemma PressKeyCount(keyName: string, times: int)
    requires keyName in KeyTable
    ensures |Dispatched(PressKeyEntries(keyName, true, times))| == if times <= 0 then 0 else 3 * times
  {
    PressKeyDispatches(keyName, true, times);
    RepeatLength(KeyTriple(KeyTable[keyName], NoOptions), times);
  }

  /** Event order: the k-th press of pressKey is keydown, keypress, keyup with the table's key, code and keyCode. */
  lemma PressKeyOrder(keyName: string, times: int, k: nat)
    requires keyName in KeyTable && k < times
    ensures var evs := Dispatched(PressKeyEntries(keyName, true, times)); var info := KeyTable[keyName];
      3 * k + 2 < |evs| &&
      evs[3 * k] == Key(KeyDown, info.key, info.code, info.keyCode, info.keyCode, true, true, false) &&
      evs[3 * k + 1] == Key(KeyPress, info.key, info.code, info.keyCode, info.keyCode, true, true, false) &&
      evs[3 * k + 2] == Key(KeyUp, info.key, info.code, info.keyCode, info.keyCode, true, true, false)
  {
    var triple := KeyTriple(KeyTable[keyName], NoOptions);
    PressKeyDispatches(keyName, true, times);
    RepeatAt(triple, times, k, 0);
    RepeatAt(triple, times, k, 1);
    RepeatAt(triple, times, k, 2);
  }

  /** The trace of pressCtrl0: one press of '0' with ctrlKey held, then a very long sleep. */
  function Ctrl0Entries(hasTarget: bool): seq<Entry> {
    KeyPressEntries("0", hasTarget, SleepDefaultMs, CtrlHeld) + [Delay(SleepVeryLongMs)]
  }

  /** pressCtrl0 dispatches one '0' triple (key '0', code 'Digit0', keyCode 48) with ctrlKey true. */
  lemma Ctrl0Dispatches()
    ensures Dispatched(Ctrl0Entries(true)) == [
      Key(KeyDown, "0", "Digit0", 48, 48, true, true, true),
      Key(KeyPress, "0", "Digit0", 48, 48, true, true, true),
      Key(KeyUp, "0", "Digit0", 48, 48, true, true, true)]
  {
    KeyPressDispatches("0", true, SleepDefaultMs, CtrlHeld);
    DispatchedAppend(KeyPressEntries("0", true, SleepDefaultMs, CtrlHeld), [Delay(SleepVeryLongMs)]);
    assert Dispatched([Delay(SleepVeryLongMs)]) == [];
  }

  // The guard `keyName in KEY_INFO` as written: JavaScript's `in` also finds properties inherited
  // from Object.prototype, so these names pass it although KEY_INFO has no entry for them.
  const ObjectPrototypeNames: set<string> := {
    "constructor", "toString", "toLocaleString", "valueOf", "hasOwnProperty", "isPrototypeOf",
    "propertyIsEnumerable", "__proto__", "__defineGetter__", "__defineSetter__",
    "__lookupGetter__", "__lookupSetter__"
  }

  predicate PassesKeyGuardAsWritten(keyName: string) {
    keyName in KeyTable || keyName in ObjectPrototypeNames
  }

  /**
   * simulateKeyPress as written: an inherited name reads `KEY_INFO[keyName].key` (and code, keyCode)
   * as undefined, which the KeyboardEvent constructor turns into "", "" and 0.
   */
  function KeyPressEntriesAsWritten(keyName: string, hasTarget: bool, delay: int, opts: KeyOptions): (r: seq<Entry>)
    ensures r == [] <==> !hasTarget || !PassesKeyGuardAsWritten(keyName)
    ensures r != [] ==> |r| == 6 && forall i :: 0 <= i < 3 ==> r[2 * i + 1] == Delay(SleepDuration(delay))
    ensures r != [] ==> r[0].Key? && r[0].kind == KeyDown && r[2].Key? && r[2].kind == KeyPress && r[4].Key? && r[4].kind == KeyUp
    ensures r != [] && keyName !in KeyTable ==> r[0].Key? && r[0].key == opts.key.GetOr("") && r[0].keyCode == opts.keyCode.GetOr(0)
  {
    if !hasTarget || !PassesKeyGuardAsWritten(keyName) then []
    else
      var info := if keyName in KeyTable then KeyTable[keyName] else KeyInfo("", "", 0);
      var d := Delay(SleepDuration(delay));
      [KeyEvent(KeyDown, info, opts), d, KeyEvent(KeyPress, info, opts), d, KeyEvent(KeyUp, info, opts), d]
  }

  /**
   * simulateKeyPress as written dispatches keydown, keypress, keyup whenever the `in` guard passes:
   * with the table's triple for a key KEY_INFO owns, blank ("", "", 0) for an inherited name.
   */
  lemma KeyPressAsWrittenDispatches(keyName: string, hasTarget: bool, delay: int, opts: KeyOptions)
    ensures Dispatched(KeyPressEntriesAsWritten(keyName, hasTarget, delay, opts)) ==
      if hasTarget && PassesKeyGuardAsWritten(keyName)
      then KeyTriple(if keyName in KeyTable then KeyTable[keyName] else KeyInfo("", "", 0), opts)
      else []
  {
    if hasTarget && PassesKeyGuardAsWritten(keyName) {
      var info := if keyName in KeyTable then KeyTable[keyName] else KeyInfo("", "", 0);
      var d := Delay(SleepDuration(delay));
      var down, press, up := KeyEvent(KeyDown, info, opts), KeyEvent(KeyPress, info, opts), KeyEvent(KeyUp, info, opts);
      assert KeyPressEntriesAsWritten(keyName, hasTarget, delay, opts) == [down, d] + [press, d] + [up, d];
      DispatchedAppend([down, d] + [press, d], [up, d]);
      DispatchedAppend([down, d], [press, d]);
      assert Dispatched([down, d]) == [down];
      assert Dispatched([press, d]) == [press];
      assert Dispatched([up, d]) == [up];
    }
  }

  /** The discrepancy: "toString" is not a supported key, yet the guard as written lets three blank key events through. */
  lemma InheritedNameSlipsThrough()
    ensures "toString" !in KeyTable && PassesKeyGuardAsWritten("toString")
    ensures Dispatched(KeyPressEntriesAsWritten("toString", true, SleepDefaultMs, NoOptions)) ==
      KeyTriple(KeyInfo("", "", 0), NoOptions)
    ensures Dispatched(KeyPressEntries("toString", true, SleepDefaultMs, NoOptions)) == []
  {
    var blank := KeyInfo("", "", 0);
    var d := Delay(SleepDuration(SleepDefaultMs));
    var down, press, up := KeyEvent(KeyDown, blank, NoOptions), KeyEvent(KeyPress, blank, NoOptions), KeyEvent(KeyUp, blank, NoOptions);
    assert KeyPressEntriesAsWritten("toString", true, SleepDefaultMs, NoOptions) == [down, d] + [press, d] + [up, d];
    DispatchedAppend([down, d] + [press, d], [up, d]);
    DispatchedAppend([down, d], [press, d]);
    assert Dispatched([down, d]) == [down];
    assert Dispatched([press, d]) == [press];
    assert Dispatched([up, d]) == [up];
  }

  /** The corrected guard agrees with the one as written on every key KEY_INFO really has. */
  lemma GuardsAgreeOnTable(keyName: string, hasTarget: bool, delay: int, opts: KeyOptions)
    requires keyName in KeyTable
    ensures KeyPressEntriesAsWritten(keyName, hasTarget, delay, opts) == KeyPressEntries(keyName, hasTarget, delay, opts)
  {
  }
}
