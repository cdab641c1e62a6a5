/** The iterator over the objects of a bucket: the same lookahead as the
    bucket iterator, each engine record converted by `new ObjectInfo(obj)`
    before it is released. */
module ObjectIterator {
  import opened Java
  import opened Native
  import ExceptionUtil
  import ObjectInfo
  import opened Lookahead

  type Info = ObjectInfo.ObjectInfo

  class ObjectIterator {
    var cursor: Cursor<RawObject>
    var currentItem: Option<Info>
    var hasNext: Option<bool>
    /** The calls made on the engine's cursor, in order. */
    ghost var calls: seq<CursorCall>

    ghost function Snapshot(): State<RawObject, Info>
      reads this
    {
      State(cursor, currentItem, hasNext)
    }

    /** Wraps the cursor `list_objects` returned for the listing `items`,
        which stops with `terminal`. */
    constructor(items: seq<RawObject>, terminal: Option<EngineError>)
      ensures Snapshot() == Fresh(items, terminal) && calls == []
    {
      cursor := Start(items, terminal);
      currentItem := None;
      hasNext := None;
      calls := [];
    }

    /** `hasNext()`, as `HasNextStep` states it. */
    method HasNext() returns (r: Result<bool>)
      requires ValidCursor(cursor)
      modifies this
      ensures ValidCursor(cursor)
      ensures var step := HasNextStep(old(Snapshot()), ObjectInfo.Convert);
        Snapshot() == step.state && r == step.result && calls == old(calls) + step.calls
    {
      if hasNext.None? {
        var more := More(cursor);
        cursor := Advance(cursor);
        hasNext := Some(more);
        if more {
          var index := cursor.pos - 1;
          var info := ObjectInfo.New(cursor.items[index]);
          currentItem := Some(info);
          calls := calls + [NextCall(true), ItemCall(index), FreeItem(index)];
        } else {
          calls := calls + [NextCall(false), ErrCall];
          var thrown := ExceptionUtil.HandleError(ErrOf(cursor));
          if thrown.Some? {
            return Err(RuntimeException(thrown.value));
          }
        }
      }
      r := Ok(hasNext.value);
    }

    /** `next()`, as `NextStep` states it; `Ok(None)` is the null it returns at the end. */
    method Next() returns (r: Result<Option<Info>>)
      requires ValidCursor(cursor)
      modifies this
      ensures ValidCursor(cursor)
      ensures var step := NextStep(old(Snapshot()), ObjectInfo.Convert);
        Snapshot() == step.state && r == step.result && calls == old(calls) + step.calls
    {
      var more := More(cursor);
      cursor := Advance(cursor);
      hasNext := Some(more);
      if currentItem.Some? {
        var result := currentItem.value;
        if more {
          var index := cursor.pos - 1;
          var info := ObjectInfo.New(cursor.items[index]);
          currentItem := Some(info);
          calls := calls + [NextCall(true), ItemCall(index), FreeItem(index)];
        } else {
          calls := calls + [NextCall(false), ErrCall];
          var thrown := ExceptionUtil.HandleError(ErrOf(cursor));
          if thrown.Some? {
            return Err(RuntimeException(thrown.value));
          }
        }
        return Ok(Some(result));
      } else {
        if more {
          var index := cursor.pos - 1;
          var result := ObjectInfo.New(cursor.items[index]);
          calls := calls + [NextCall(true), ItemCall(index), FreeItem(index)];
          return Ok(Some(result));
        } else {
          calls := calls + [NextCall(false), ErrCall];
          var thrown := ExceptionUtil.HandleError(ErrOf(cursor));
          if thrown.Some? {
            return Err(RuntimeException(thrown.value));
          }
        }
      }
      r := Ok(None);
    }

    /** `close()`: releases the cursor without asking for its error, so an
        error the caller never reached is not reported. */
    method Close()
      modifies this
      ensures Snapshot() == old(Snapshot())
      ensures calls == old(calls) + [FreeCursor]
    {
      calls := calls + [FreeCursor];
    }
  }
}
