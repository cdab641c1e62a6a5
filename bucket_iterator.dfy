/** The iterator over the buckets of a project: a lookahead over the engine's
    bucket cursor, the bucket record copied into Java before it is released. */
module BucketIterator {
  import opened Java
  import opened Native
  import ExceptionUtil
  import opened Lookahead

  /** `new BucketInfo(bucket)`: BucketInfo.java is not part of this model, so a
      bucket is kept as the engine reports it. */
  function ToInfo(bucket: RawBucket): RawBucket
  {
    bucket
  }

  class BucketIterator {
    var cursor: Cursor<RawBucket>
    var currentItem: Option<RawBucket>
    var hasNext: Option<bool>
    /** The calls made on the engine's cursor, in order. */
    ghost var calls: seq<CursorCall>

    ghost function Snapshot(): State<RawBucket, RawBucket>
      reads this
    {
      State(cursor, currentItem, hasNext)
    }

    /** Wraps the cursor `list_buckets` returned for the listing `items`,
        which stops with `terminal`. */
    constructor(items: seq<RawBucket>, terminal: Option<EngineError>)
      ensures Snapshot() == Fresh(items, terminal) && calls == []
    {
      cursor := Start(items, terminal);
      currentItem := None;
      hasNext := None;
      calls := [];
    }

    /** `hasNext()`, as `HasNextStep` states it. */
    method HasNext() returns (r: Result<bool>)
      requires ValidCursor(cursor)
      modifies this
      ensures ValidCursor(cursor)
      ensures var step := HasNextStep(old(Snapshot()), ToInfo);
        Snapshot() == step.state && r == step.result && calls == old(calls) + step.calls
    {
      if hasNext.None? {
        var more := More(cursor);
        cursor := Advance(cursor);
        hasNext := Some(more);
        if more {
          var index := cursor.pos - 1;
          currentItem := Some(ToInfo(cursor.items[index]));
          calls := calls + [NextCall(true), ItemCall(index), FreeItem(index)];
        } else {
          calls := calls + [NextCall(false), ErrCall];
          var thrown := ExceptionUtil.HandleError(ErrOf(cursor));
          if thrown.Some? {
            return Err(RuntimeException(thrown.value));
          }
        }
      }
      r := Ok(hasNext.value);
    }

    /** `next()`, as `NextStep` states it; `Ok(None)` is the null it returns at the end. */
    method Next() returns (r: Result<Option<RawBucket>>)
      requires ValidCursor(cursor)
      modifies this
      ensures ValidCursor(cursor)
      ensures var step := NextStep(old(Snapshot()), ToInfo);
        Snapshot() == step.state && r == step.result && calls == old(calls) + step.calls
    {
      var more := More(cursor);
      cursor := Advance(cursor);
      hasNext := Some(more);
      if currentItem.Some? {
        var result := currentItem.value;
        if more {
          var index := cursor.pos - 1;
          currentItem := Some(ToInfo(cursor.items[index]));
          calls := calls + [NextCall(true), ItemCall(index), FreeItem(index)];
        } else {
          calls := calls + [NextCall(false), ErrCall];
          var thrown := ExceptionUtil.HandleError(ErrOf(cursor));
          if thrown.Some? {
            return Err(RuntimeException(thrown.value));
          }
        }
        return Ok(Some(result));
      } else {
        if more {
          var index := cursor.pos - 1;
          var result := ToInfo(cursor.items[index]);
          calls := calls + [NextCall(true), ItemCall(index), FreeItem(index)];
          return Ok(Some(result));
        } else {
          calls := calls + [NextCall(false), ErrCall];
          var thrown := ExceptionUtil.HandleError(ErrOf(cursor));
          if thrown.Some? {
            return Err(RuntimeException(thrown.value));
          }
        }
      }
      r := Ok(None);
    }

    /** `close()`: asks the cursor for its error, then releases the cursor
        whether or not that error is thrown. The error is thrown unwrapped;
        before the end is reported there is none. */
    method Close() returns (r: Result<()>)
      modifies this
      ensures Snapshot() == old(Snapshot())
      ensures calls == old(calls) + [ErrCall, FreeCursor]
      ensures r == (if ErrOf(cursor).Some? then Err(ExceptionUtil.Raise(ErrOf(cursor).value)) else Ok(()))
    {
      r := Ok(());
      label attempt: {
        calls := calls + [ErrCall];
        var thrown := ExceptionUtil.HandleError(ErrOf(cursor));
        if thrown.Some? {
          r := Err(thrown.value);
          break attempt;
        }
      }
      // finally
      calls := calls + [FreeCursor];
    }
  }
}
