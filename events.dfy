/**
 * The observable trace of the userscript: every event it dispatches to the page, and every
 * `sleep` it awaits, in the order they happen. Real timing is not modelled; a sleep is a Delay entry.
 */
module Events {

  /** CONFIG: the delay constants and the retry ceiling. */
  const SleepDefaultMs := 20
  const SleepLongMs := 100
  const SleepVeryLongMs := 500
  const MaxRetries := 10

  /** The three keyboard event types a simulated key press is made of. */
  datatype KeyKind = KeyDown | KeyPress | KeyUp

  /** Which of the locator's two searches found the element it clicked. */
  datatype ClickPath =
    | ButtonText   // a button-like element whose '.swt-check-button-text' child carries the label
    | TextContent  // any element whose own text content is the label

  datatype Entry =
    | Key(kind: KeyKind, key: string, code: string, keyCode: int, which: int,
          bubbles: bool, cancelable: bool, ctrlKey: bool)
    | Input                             // new Event('input', { bubbles: true })
    | Change                            // new Event('change', { bubbles: true })
    | Click(path: ClickPath, index: nat) // element.click() on the index-th candidate of that search
    | Delay(ms: nat)                     // an awaited sleep

  /** The delay `sleep(ms)` waits: a negative request falls back to the default. */
  function SleepDuration(ms: int): (d: nat)
    ensures ms >= 0 ==> d == ms
    ensures ms < 0 ==> d == SleepDefaultMs
  {
    if ms < 0 then SleepDefaultMs else ms
  }

  /** The events of a trace, without its delays, in the same order. */
  function Dispatched(log: seq<Entry>): (r: seq<Entry>)
    ensures |r| <= |log|
    ensures forall i :: 0 <= i < |r| ==> !r[i].Delay?
  {
    if log == [] then []
    else (if log[0].Delay? then [] else [log[0]]) + Dispatched(log[1..])
  }

  /** The dispatched events are exactly the trace's entries that are not delays. */
  lemma {:induction false} DispatchedMembers(log: seq<Entry>)
    ensures forall e :: e in Dispatched(log) <==> e in log && !e.Delay?
  {
    if log != [] {
      DispatchedMembers(log[1..]);
      assert log == [log[0]] + log[1..];
    }
  }

  /** One entry is kept exactly when it is not a delay. */
  lemma DispatchedSingle(e: Entry)
    ensures Dispatched([e]) == if e.Delay? then [] else [e]
  {
    assert [e][1..] == [];
  }

  /** Filtering delays out commutes with appending to the trace. */
  lemma {:induction false} DispatchedAppend(a: seq<Entry>, b: seq<Entry>)
    ensures Dispatched(a + b) == Dispatched(a) + Dispatched(b)
  {
    if a == [] {
      assert a + b == b;
    } else {
      assert (a + b)[0] == a[0];
      assert (a + b)[1..] == a[1..] + b;
      DispatchedAppend(a[1..], b);
    }
  }

  /** `n` copies of `s`, one after the other; nothing when `n <= 0`. */
  function Repeat<T>(s: seq<T>, n: int): seq<T>
    decreases n
  {
    if n <= 0 then [] else Repeat(s, n - 1) + s
  }

  lemma {:induction false} RepeatLength<T>(s: seq<T>, n: int)
    ensures |Repeat(s, n)| == if n <= 0 then 0 else n * |s|
    decreases n
  {
    if n > 0 {
      RepeatLength(s, n - 1);
    }
  }

  /** The j-th element of the k-th copy is the j-th element of `s`. */
  lemma {:induction false} RepeatAt<T>(s: seq<T>, n: int, k: nat, j: nat)
    requires k < n && j < |s|
    ensures k * |s| + j < |Repeat(s, n)| && Repeat(s, n)[k * |s| + j] == s[j]
    decreases n
  {
    RepeatLength(s, n - 1);
    RepeatLength(s, n);
    if k < n - 1 {
      RepeatAt(s, n - 1, k, j);
      assert Repeat(s, n) == Repeat(s, n - 1) + s;
    } else {
      assert k * |s| == |Repeat(s, n - 1)|;
    }
  }

  /** Repeating nothing gives nothing. */
  lemma {:induction false} EmptyRepeat<T>(n: int)
    ensures Repeat<T>([], n) == []
    decreases n
  {
    if n > 0 {
      EmptyRepeat<T>(n - 1);
    }
  }

  /** `n` copies of a single element hold that element exactly `n` times. */
  lemma {:induction false} RepeatCount<T>(x: T, n: int)
    ensures multiset(Repeat([x], n))[x] == if n <= 0 then 0 else n
    decreases n
  {
    if n > 0 {
      RepeatCount(x, n - 1);
      assert Repeat([x], n) == Repeat([x], n - 1) + [x];
    }
  }

  /** Filtering delays out of a repetition repeats the filtered sequence. */
  lemma {:induction false} DispatchedRepeat(s: seq<Entry>, n: int)
    ensures Dispatched(Repeat(s, n)) == Repeat(Dispatched(s), n)
    decreases n
  {
    if n > 0 {
      var prev := Repeat(s, n - 1);
      assert Repeat(s, n) == prev + s;
      DispatchedAppend(prev, s);
      DispatchedRepeat(s, n - 1);
      assert Repeat(Dispatched(s), n) == Repeat(Dispatched(s), n - 1) + Dispatched(s);
    }
  }

  /** Event counts add up over concatenated traces. */
  lemma DispatchedLength(a: seq<Entry>, b: seq<Entry>)
    ensures |Dispatched(a + b)| == |Dispatched(a)| + |Dispatched(b)|
  {
    DispatchedAppend(a, b);
  }

  /** Regrouping a trace appended to a log. */
  lemma AppendAssoc<T>(log: seq<T>, a: seq<T>, b: seq<T>)
    ensures log + (a + b) == log + a + b
  {
  }

  /** Regrouping a four-part trace appended to a log. */
  lemma AppendAssoc4<T>(log: seq<T>, a: seq<T>, b: seq<T>, c: seq<T>, d: seq<T>)
    ensures log + (a + b + c + d) == log + a + b + c + d
  {
  }
}
