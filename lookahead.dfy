/** The lookahead state machine shared by the bucket and object iterators: a
    cached `hasNext` flag and a one-item buffer over the engine's listing cursor. */
module Lookahead {
  import opened Java
  import opened Native
  import ExceptionUtil

  /** The engine's listing cursor: the items it will produce, how many it has
      produced, whether it has reported the end, and the error (if any) it
      reports once the listing stops. */
  datatype Cursor<R> = Cursor(items: seq<R>, pos: nat, ended: bool, terminal: Option<EngineError>)

  ghost predicate ValidCursor<R>(c: Cursor<R>)
  {
    c.pos <= |c.items| && (c.ended ==> c.pos == |c.items|)
  }

  /** A cursor as the engine creates it. */
  function Start<R>(items: seq<R>, terminal: Option<EngineError>): Cursor<R>
  {
    Cursor(items, 0, false, terminal)
  }

  /** Whether `*_iterator_next` reports one more item. */
  predicate More<R>(c: Cursor<R>)
  {
    c.pos < |c.items|
  }

  /** `*_iterator_next`: moves to the next item, or records that the end was reported. */
  function Advance<R>(c: Cursor<R>): Cursor<R>
  {
    if More(c) then c.(pos := c.pos + 1) else c.(ended := true)
  }

  /** `*_iterator_err`: the terminal error once the end has been reported, null before. */
  function ErrOf<R>(c: Cursor<R>): Option<EngineError>
  {
    if c.ended then c.terminal else None
  }

  /** The calls the Java side makes on the cursor. */
  datatype CursorCall = NextCall(more: bool) | ItemCall(index: nat) | FreeItem(index: nat) | ErrCall | FreeCursor

  /** The iterator's fields: the cursor, the buffered `currentItem` and the
      cached `hasNext` flag (a nullable `Boolean`). */
  datatype State<R, T> = State(cursor: Cursor<R>, currentItem: Option<T>, hasNext: Option<bool>)

  /** A fresh iterator over a fresh cursor. */
  function Fresh<R, T>(items: seq<R>, terminal: Option<EngineError>): State<R, T>
  {
    State(Start(items, terminal), None, None)
  }

  /** The outcome of one call: the new fields, the value returned or the
      exception thrown, and the cursor calls made. */
  datatype Step<R, T, V> = Step(state: State<R, T>, result: Result<V>, calls: seq<CursorCall>)

  /** A cursor error surfaces as a `RuntimeException` wrapping the `StorjException`. */
  function Wrap(e: EngineError): Exception
  {
    RuntimeException(ExceptionUtil.Raise(e))
  }

  /** The calls of one advance: the item fetched is the next one and is
      released right after its conversion; at the end, the error is checked. */
  ghost predicate AdvanceCalls<R>(c: Cursor<R>, calls: seq<CursorCall>)
  {
    if More(c) then calls == [NextCall(true), ItemCall(c.pos), FreeItem(c.pos)]
    else calls == [NextCall(false), ErrCall]
  }

  /** `hasNext()`: only when the flag is unset, advance once, buffer the item
      or check the error. The flag is set before a cursor error is thrown. */
  function HasNextStep<R, T>(s: State<R, T>, conv: R -> T): (step: Step<R, T, bool>)
    requires ValidCursor(s.cursor)
    ensures ValidCursor(step.state.cursor)
    ensures s.hasNext.Some? ==> step == Step(s, Ok(s.hasNext.value), [])
    ensures s.hasNext.None? ==> step.state.cursor == Advance(s.cursor) && AdvanceCalls(s.cursor, step.calls)
    ensures step.state.hasNext.Some?
    ensures step.result.Ok? ==> step.result.value == step.state.hasNext.value
  {
    if s.hasNext.Some? then Step(s, Ok(s.hasNext.value), [])
    else
      var c := Advance(s.cursor);
      if More(s.cursor) then
        Step(State(c, Some(conv(c.items[s.cursor.pos])), Some(true)), Ok(true),
             [NextCall(true), ItemCall(s.cursor.pos), FreeItem(s.cursor.pos)])
      else
        var e := ErrOf(c);
        Step(State(c, s.currentItem, Some(false)), if e.Some? then Err(Wrap(e.value)) else Ok(false),
             [NextCall(false), ErrCall])
  }

  /** `next()`: always advances once. With a buffered item it returns that
      item and buffers the following one; without one it returns the fresh
      item unbuffered, or null. At the end the error is checked, and a
      thrown error discards the buffered item. The buffer is never cleared. */
  function NextStep<R, T>(s: State<R, T>, conv: R -> T): (step: Step<R, T, Option<T>>)
    requires ValidCursor(s.cursor)
    ensures ValidCursor(step.state.cursor)
    ensures step.state.cursor == Advance(s.cursor) && AdvanceCalls(s.cursor, step.calls)
    ensures step.state.hasNext == Some(More(s.cursor))
  {
    var c := Advance(s.cursor);
    var e := ErrOf(c);
    if s.currentItem.Some? then
      var result := s.currentItem.value;
      if More(s.cursor) then
        Step(State(c, Some(conv(c.items[s.cursor.pos])), Some(true)), Ok(Some(result)),
             [NextCall(true), ItemCall(s.cursor.pos), FreeItem(s.cursor.pos)])
      else
        Step(State(c, s.currentItem, Some(false)), if e.Some? then Err(Wrap(e.value)) else Ok(Some(result)),
             [NextCall(false), ErrCall])
    else
      if More(s.cursor) then
        Step(State(c, None, Some(true)), Ok(Some(conv(c.items[s.cursor.pos]))),
             [NextCall(true), ItemCall(s.cursor.pos), FreeItem(s.cursor.pos)])
      else
        Step(State(c, None, Some(false)), if e.Some? then Err(Wrap(e.value)) else Ok(None),
             [NextCall(false), ErrCall])
  }

  /** A second `hasNext()` makes no cursor call and changes nothing; it
      repeats the first answer, or answers false after the first one threw. */
  lemma HasNextAdvancesAtMostOnce<R, T>(s: State<R, T>, conv: R -> T)
    requires ValidCursor(s.cursor)
    ensures var first := HasNextStep(s, conv);
      var second := HasNextStep(first.state, conv);
      second.calls == [] && second.state == first.state &&
      second.result == (if first.result.Ok? then first.result else Ok(false))
  {
  }

  /** `next()` with a buffered item returns it and buffers the following one. */
  lemma NextWithBuffer<R, T>(s: State<R, T>, conv: R -> T)
    requires ValidCursor(s.cursor) && s.currentItem.Some? && More(s.cursor)
    ensures var step := NextStep(s, conv);
      step.result == Ok(s.currentItem) &&
      step.state.currentItem == Some(conv(s.cursor.items[s.cursor.pos])) &&
      step.state.cursor.pos == s.cursor.pos + 1
  {
  }

  /** `next()` with no buffered item returns the fresh item and leaves the
      buffer empty, or returns null at the end when there is no error. */
  lemma NextWithoutBuffer<R, T>(s: State<R, T>, conv: R -> T)
    requires ValidCursor(s.cursor) && s.currentItem.None?
    ensures var step := NextStep(s, conv);
      step.state.currentItem.None? &&
      (More(s.cursor) ==> step.result == Ok(Some(conv(s.cursor.items[s.cursor.pos])))) &&
      (!More(s.cursor) && s.cursor.terminal.None? ==> step.result == Ok(None))
  {
  }

  /** At the end, a cursor error is thrown and the buffered item is never returned. */
  lemma ErrorDiscardsBufferedItem<R, T>(s: State<R, T>, conv: R -> T)
    requires ValidCursor(s.cursor) && s.currentItem.Some? && !More(s.cursor) && s.cursor.terminal.Some?
    ensures NextStep(s, conv).result == Err(Wrap(s.cursor.terminal.value))
  {
  }

  /** The buffer is not cleared at the end: every further `next()` returns
      the last item again. */
  lemma StaleBufferRepeats<R, T>(s: State<R, T>, conv: R -> T)
    requires ValidCursor(s.cursor) && s.currentItem.Some? && !More(s.cursor) && s.cursor.terminal.None?
    ensures var step := NextStep(s, conv);
      step.result == Ok(s.currentItem) && step.state.currentItem == s.currentItem &&
      var again := NextStep(step.state, conv);
      again.result == Ok(s.currentItem) && again.state.currentItem == s.currentItem
  {
  }

  /** A bare `next()` that takes the last item sets the flag to true, so a
      following `hasNext()` answers true with no cursor call, and the
      `next()` after it returns null. */
  lemma BareNextLeavesStaleTrue<R, T>(s: State<R, T>, conv: R -> T)
    requires ValidCursor(s.cursor) && s.currentItem.None? && s.cursor.terminal.None?
    requires s.cursor.pos == |s.cursor.items| - 1
    ensures var n := NextStep(s, conv);
      var h := HasNextStep(n.state, conv);
      h.result == Ok(true) && h.calls == [] && !More(h.state.cursor) &&
      NextStep(h.state, conv).result == Ok(None)
  {
  }

  // The hasNext-then-next protocol, run until `hasNext()` answers false or a call throws.

  /** What a run of the protocol observed: the values `next()` returned, the
      exception that stopped it, and the cursor calls made. */
  datatype Outcome<T> = Outcome(returned: seq<Option<T>>, error: Option<Exception>, calls: seq<CursorCall>)

  function Drain<R, T>(s: State<R, T>, conv: R -> T, fuel: nat): Outcome<T>
    requires ValidCursor(s.cursor)
    decreases fuel
  {
    if fuel == 0 then Outcome([], None, [])
    else
      var h := HasNextStep(s, conv);
      if h.result.Err? then Outcome([], Some(h.result.error), h.calls)
      else if !h.result.value then Outcome([], None, h.calls)
      else
        var n := NextStep(h.state, conv);
        if n.result.Err? then Outcome([], Some(n.result.error), h.calls + n.calls)
        else
          var rest := Drain(n.state, conv, fuel - 1);
          Outcome([n.result.value] + rest.returned, rest.error, h.calls + n.calls + rest.calls)
  }

  /** The items converted, in order, each as a returned value. */
  function Converted<R, T>(items: seq<R>, conv: R -> T): (r: seq<Option<T>>)
    ensures |r| == |items|
    ensures forall i :: 0 <= i < |items| ==> r[i] == Some(conv(items[i]))
  {
    if items == [] then [] else [Some(conv(items[0]))] + Converted(items[1..], conv)
  }

  /** The cursor calls fetching items `k` up to `n`, in order. */
  function Fetches(k: nat, n: nat): seq<CursorCall>
    decreases n - k
  {
    if k >= n then [] else [NextCall(true), ItemCall(k), FreeItem(k)] + Fetches(k + 1, n)
  }

  /** Item `k + q` is fetched at position `3q + 1`, right after one successful
      advance, and released right after: each item is fetched once and
      released once, and no other call appears. */
  lemma {:induction false} FetchesShape(k: nat, n: nat)
    requires k <= n
    ensures |Fetches(k, n)| == 3 * (n - k)
    ensures forall p :: 0 <= p < |Fetches(k, n)| ==>
      Fetches(k, n)[p] == (if p % 3 == 0 then NextCall(true) else if p % 3 == 1 then ItemCall(k + p / 3) else FreeItem(k + p / 3))
    decreases n - k
  {
    if k < n {
      FetchesShape(k + 1, n);
      var rest := Fetches(k + 1, n);
      var calls := Fetches(k, n);
      assert calls == [NextCall(true), ItemCall(k), FreeItem(k)] + rest;
      forall p | 3 <= p < |calls|
        ensures calls[p] == (if p % 3 == 0 then NextCall(true) else if p % 3 == 1 then ItemCall(k + p / 3) else FreeItem(k + p / 3))
      {
        assert calls[p] == rest[p - 3];
        assert (p - 3) % 3 == p % 3 && k + 1 + (p - 3) / 3 == k + p / 3;
      }
    }
  }

  function AllButLast<R>(items: seq<R>): seq<R>
  {
    if items == [] then [] else items[..|items| - 1]
  }

  /** The state after item `k` was buffered under the protocol. */
  function Buffered<R, T>(items: seq<R>, terminal: Option<EngineError>, k: nat, conv: R -> T): State<R, T>
    requires k < |items|
  {
    State(Cursor(items, k + 1, false, terminal), Some(conv(items[k])), Some(true))
  }

  /** One round from a buffered item that is not the last: `next()` returns
      it and buffers the following one. */
  lemma DrainRoundBuffered<R, T>(items: seq<R>, terminal: Option<EngineError>, k: nat, conv: R -> T, fuel: nat)
    requires k + 1 < |items| && fuel > 0
    ensures var rest := Drain(Buffered(items, terminal, k + 1, conv), conv, fuel - 1);
      Drain(Buffered(items, terminal, k, conv), conv, fuel) ==
        Outcome([Some(conv(items[k]))] + rest.returned, rest.error,
                [NextCall(true), ItemCall(k + 1), FreeItem(k + 1)] + rest.calls)
  {
    var s := Buffered(items, terminal, k, conv);
    var h := HasNextStep(s, conv);
    assert h == Step(s, Ok(true), []);
    var n := NextStep(s, conv);
    assert n.state == Buffered(items, terminal, k + 1, conv);
    assert n.calls == [NextCall(true), ItemCall(k + 1), FreeItem(k + 1)];
    assert n.result == Ok(Some(conv(items[k])));
    var rest := Drain(n.state, conv, fuel - 1);
    assert h.calls + n.calls + rest.calls == n.calls + rest.calls;
  }

  /** The round from the last item buffered: `next()` returns it, or throws
      the cursor error instead, and the run stops. */
  lemma DrainRoundLast<R, T>(items: seq<R>, terminal: Option<EngineError>, conv: R -> T, fuel: nat)
    requires |items| > 0 && fuel > 0
    ensures var o := Drain(Buffered(items, terminal, |items| - 1, conv), conv, fuel);
      o.calls == [NextCall(false), ErrCall] &&
      (terminal.None? ==> o.returned == [Some(conv(items[|items| - 1]))] && o.error.None?) &&
      (terminal.Some? ==> o.returned == [] && o.error == Some(Wrap(terminal.value)))
  {
    var s := Buffered(items, terminal, |items| - 1, conv);
    var h := HasNextStep(s, conv);
    assert h == Step(s, Ok(true), []);
    var n := NextStep(s, conv);
    assert n.calls == [NextCall(false), ErrCall];
    if terminal.None? {
      assert n.result == Ok(Some(conv(items[|items| - 1])));
      var rest := Drain(n.state, conv, fuel - 1);
      assert HasNextStep(n.state, conv).result == Ok(false);
      assert rest == Outcome([], None, []);
      assert h.calls + n.calls + rest.calls == n.calls;
    } else {
      assert n.result == Err(Wrap(terminal.value));
    }
  }

  /** Splitting the first item off the converted items from `k`. */
  lemma ConvertedFrom<R, T>(items: seq<R>, k: nat, j: nat, conv: R -> T)
    requires k < j <= |items|
    ensures Converted(items[k..j], conv) == [Some(conv(items[k]))] + Converted(items[k + 1..j], conv)
  {
    assert items[k..j] == [items[k]] + items[k + 1..j];
  }

  /** Splitting the fetch of item `k + 1` off the fetches from `k + 1`, ahead of the final check. */
  lemma FetchesFrom(k: nat, n: nat, tail: seq<CursorCall>)
    requires k + 1 < n
    ensures [NextCall(true), ItemCall(k + 1), FreeItem(k + 1)] + (Fetches(k + 2, n) + tail) == Fetches(k + 1, n) + tail
  {
    assert Fetches(k + 1, n) == [NextCall(true), ItemCall(k + 1), FreeItem(k + 1)] + Fetches(k + 2, n);
  }

  /** What the protocol observes from the state after item `k` was buffered:
      the remaining items fetched in order, then the final check; the items
      from `k` returned in order, without the last one when the listing
      stops with an error. */
  ghost predicate DrainedFrom<R, T>(o: Outcome<T>, items: seq<R>, terminal: Option<EngineError>, k: nat, conv: R -> T)
    requires k < |items|
  {
    && o.calls == Fetches(k + 1, |items|) + [NextCall(false), ErrCall]
    && (terminal.None? ==> o.returned == Converted(items[k..], conv) && o.error.None?)
    && (terminal.Some? ==> o.returned == Converted(items[k..|items| - 1], conv) && o.error == Some(Wrap(terminal.value)))
  }

  /** One buffered round in front of a run that has the shape from `k + 1`
      gives a run that has the shape from `k`. */
  lemma DrainedFromStep<R, T>(items: seq<R>, terminal: Option<EngineError>, k: nat, conv: R -> T, o: Outcome<T>, rest: Outcome<T>)
    requires k + 1 < |items|
    requires o.returned == [Some(conv(items[k]))] + rest.returned && o.error == rest.error
    requires o.calls == [NextCall(true), ItemCall(k + 1), FreeItem(k + 1)] + rest.calls
    requires DrainedFrom(rest, items, terminal, k + 1, conv)
    ensures DrainedFrom(o, items, terminal, k, conv)
  {
    FetchesFrom(k, |items|, [NextCall(false), ErrCall]);
    ConvertedFrom(items, k, |items|, conv);
    ConvertedFrom(items, k, |items| - 1, conv);
    assert items[k..] == items[k..|items|] && items[k + 1..] == items[k + 1..|items|];
  }

  /** A buffered round in front of a run from `k + 1` that has its shape. */
  lemma DrainRoundShape<R, T>(items: seq<R>, terminal: Option<EngineError>, k: nat, conv: R -> T, fuel: nat)
    requires k + 1 < |items| && fuel > 0
    requires DrainedFrom(Drain(Buffered(items, terminal, k + 1, conv), conv, fuel - 1), items, terminal, k + 1, conv)
    ensures DrainedFrom(Drain(Buffered(items, terminal, k, conv), conv, fuel), items, terminal, k, conv)
  {
    DrainRoundBuffered(items, terminal, k, conv, fuel);
    DrainedFromStep(items, terminal, k, conv,
                    Drain(Buffered(items, terminal, k, conv), conv, fuel),
                    Drain(Buffered(items, terminal, k + 1, conv), conv, fuel - 1));
  }

  /** The protocol from the state after the last item was buffered. */
  lemma DrainFromLast<R, T>(items: seq<R>, terminal: Option<EngineError>, conv: R -> T, fuel: nat)
    requires |items| > 0 && fuel > 0
    ensures DrainedFrom(Drain(Buffered(items, terminal, |items| - 1, conv), conv, fuel), items, terminal, |items| - 1, conv)
  {
    var k := |items| - 1;
    DrainRoundLast(items, terminal, conv, fuel);
    assert items[k..] == [items[k]];
    assert Converted(items[k..|items| - 1], conv) == [];
  }

  /** The protocol from the state after item `k` was buffered. */
  lemma {:induction false} DrainFromBuffered<R, T>(items: seq<R>, terminal: Option<EngineError>, k: nat, conv: R -> T, fuel: nat)
    requires k < |items| && fuel >= |items| - k
    ensures DrainedFrom(Drain(Buffered(items, terminal, k, conv), conv, fuel), items, terminal, k, conv)
    decreases |items| - k
  {
    if k + 1 < |items| {
      DrainFromBuffered(items, terminal, k + 1, conv, fuel - 1);
      DrainRoundShape(items, terminal, k, conv, fuel);
    } else {
      DrainFromLast(items, terminal, conv, fuel);
    }
  }

  /** The first `hasNext()` on a fresh iterator over a non-empty listing
      buffers the first item; the rest of the run is the run from there. */
  lemma DrainAfterFirstHasNext<R, T>(items: seq<R>, terminal: Option<EngineError>, conv: R -> T, fuel: nat)
    requires |items| > 0 && fuel > 0
    ensures var d := Drain(Buffered(items, terminal, 0, conv), conv, fuel);
      Drain(Fresh(items, terminal), conv, fuel) ==
        Outcome(d.returned, d.error, [NextCall(true), ItemCall(0), FreeItem(0)] + d.calls)
  {
    var start: State<R, T> := Fresh(items, terminal);
    var buffered := Buffered(items, terminal, 0, conv);
    assert HasNextStep(start, conv).state == buffered;
    assert HasNextStep(buffered, conv).calls == [];
  }

  /** Over an empty listing, the first `hasNext()` answers false or throws the error. */
  lemma DrainEmpty<R, T>(terminal: Option<EngineError>, conv: R -> T)
    ensures var o := Drain(Fresh([], terminal), conv, 1);
      o.calls == [NextCall(false), ErrCall] && o.returned == [] &&
      o.error == (if terminal.Some? then Some(Wrap(terminal.value)) else None)
  {
    var start: State<R, T> := Fresh([], terminal);
    assert HasNextStep(start, conv).calls == [NextCall(false), ErrCall];
  }

  /** Prepending the first fetch to the calls from the first buffered item
      gives the calls from the start. */
  lemma PrependFirstFetch(n: nat, rest: seq<CursorCall>)
    requires n > 0 && rest == Fetches(1, n) + [NextCall(false), ErrCall]
    ensures [NextCall(true), ItemCall(0), FreeItem(0)] + rest == Fetches(0, n) + [NextCall(false), ErrCall]
  {
    var first := [NextCall(true), ItemCall(0), FreeItem(0)];
    assert Fetches(0, n) == first + Fetches(1, n);
    assert first + (Fetches(1, n) + [NextCall(false), ErrCall]) == (first + Fetches(1, n)) + [NextCall(false), ErrCall];
  }

  /** The hasNext-then-next protocol over a fresh iterator returns the
      listing's items in order, each once, and fetches and releases each item
      once. When the listing stops with an error, the protocol throws it and
      the last item is never returned. */
  lemma DrainProtocol<R, T>(items: seq<R>, terminal: Option<EngineError>, conv: R -> T)
    ensures var o := Drain(Fresh(items, terminal), conv, |items| + 1);
      o.calls == Fetches(0, |items|) + [NextCall(false), ErrCall] &&
      (terminal.None? ==> o.returned == Converted(items, conv) && o.error.None?) &&
      (terminal.Some? ==> o.returned == Converted(AllButLast(items), conv) && o.error == Some(Wrap(terminal.value)))
  {
    if |items| == 0 {
      DrainEmpty<R, T>(terminal, conv);
      assert items == [];
    } else {
      DrainAfterFirstHasNext(items, terminal, conv, |items| + 1);
      DrainFromBuffered(items, terminal, 0, conv, |items| + 1);
      var d := Drain(Buffered(items, terminal, 0, conv), conv, |items| + 1);
      PrependFirstFetch(|items|, d.calls);
      assert items[0..] == items;
    }
  }
}
