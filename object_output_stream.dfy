/** The output stream an upload is written through: writes go straight to the
    engine's upload, a failed write aborts it, and `close` aborts an upload
    that was never committed and releases the upload result. */
module ObjectOutputStream {
  import opened Java
  import opened Native
  import ExceptionUtil
  import ObjectInfo

  /** The range check of `write(b, off, len)` as written, with `off + len`
      computed in 32-bit arithmetic. */
  predicate OutOfRange(length: int, off: int, len: int)
  {
    off < 0 || off > length || len < 0 || WrapInt(off + len) > length || WrapInt(off + len) < 0
  }

  /** For `int` arguments the check rejects exactly the ranges that do not
      lie inside the array: an `off + len` that overflows comes out negative
      and is caught by the last test. */
  lemma RangeCheckExact(length: int, off: int, len: int)
    requires IsInt(off) && IsInt(len) && 0 <= length <= INT_MAX
    ensures !OutOfRange(length, off, len) <==> 0 <= off && 0 <= len && off + len <= length
  {
    if 0 <= off <= length && 0 <= len && !IsInt(off + len) {
      assert WrapInt(off + len) == off + len - 0x1_0000_0000;
    }
  }

  /** The calls of one write of `bytes`: the write, then the write result is
      released when it succeeded, or the upload is aborted when it failed. */
  function AfterWrite(t: Trace, upload: Handle, bytes: seq<JByte>, error: Option<EngineError>): (u: Trace)
    requires WellFormed(t)
    ensures WellFormed(u)
  {
    var w := Record(t, UploadWrite(upload, bytes, |bytes|));
    if error.None? then Release(w, |t.calls|) else Record(w, UploadAbort(upload))
  }

  /** A write adds its own call and nothing is released but its result, which
      is released once exactly when it succeeded; a failed write is followed
      by one abort of the same upload. */
  lemma WriteReleasesOnlyOnSuccess(t: Trace, upload: Handle, bytes: seq<JByte>, error: Option<EngineError>)
    requires WellFormed(t)
    ensures var u := AfterWrite(t, upload, bytes, error); var n := |t.calls|;
      u.calls[..n] == t.calls && u.frees[..n] == t.frees &&
      u.calls[n] == UploadWrite(upload, bytes, |bytes|) &&
      u.frees[n] == (if error.None? then 1 else 0) &&
      (error.None? <==> |u.calls| == n + 1) &&
      (error.Some? ==> |u.calls| == n + 2 && u.calls[n + 1] == UploadAbort(upload) && u.frees[n + 1] == 0)
  {
    var n := |t.calls|;
    var w := Record(t, UploadWrite(upload, bytes, |bytes|));
    assert w.calls[..n] == t.calls && w.frees[..n] == t.frees;
    if error.Some? {
      var u := Record(w, UploadAbort(upload));
      assert u.calls[..n] == w.calls[..n] && u.frees[..n] == w.frees[..n];
    }
  }

  /** The exception a failed write throws: the `IOException` built from the
      write's error, unless the abort throws, whose exception replaces it. */
  function WriteFailure(writeError: EngineError, abortError: Option<EngineError>): (e: Exception)
    ensures e.IOException? && e.cause.StorjException?
    ensures abortError.None? ==> e.cause == ExceptionUtil.Raise(writeError)
    ensures abortError.Some? ==> e.cause == ExceptionUtil.Raise(abortError.value)
  {
    IOException(ExceptionUtil.Raise(if abortError.Some? then abortError.value else writeError))
  }

  /** When the abort fails, the write's own error is lost: whatever it was,
      the same exception is thrown. */
  lemma AbortErrorHidesWriteError(w1: EngineError, w2: EngineError, abortError: EngineError)
    ensures WriteFailure(w1, Some(abortError)) == WriteFailure(w2, Some(abortError))
  {
  }

  /** The entry array of `setCustomMetadata`, filled in the map's iteration
      order (which the map does not fix): every entry exactly once. */
  method EntryArray(m: map<string, string>) returns (entries: seq<RawEntry>)
    ensures |entries| == |m| && ObjectInfo.CustomMap(entries) == m
  {
    var a := new RawEntry[|m|](_ => RawEntry([], []));
    var remaining := m.Keys;
    var i := 0;
    while remaining != {}
      invariant remaining <= m.Keys && i + |remaining| == |m| && i <= a.Length
      invariant ObjectInfo.CustomMap(a[..i]) == m - remaining
      decreases remaining
    {
      var key :| key in remaining;
      ghost var before := a[..i];
      a[i] := RawEntry(key, m[key]);
      assert a[..i + 1] == before + [RawEntry(key, m[key])];
      assert m - (remaining - {key}) == (m - remaining)[key := m[key]];
      remaining := remaining - {key};
      i := i + 1;
    }
    assert a[..i] == a[..];
    entries := a[..];
  }

  class ObjectOutputStream {
    const upload: Handle
    /** The one-byte buffer `write(int)` goes through. */
    const buf: array<JByte>
    var committed: bool
    /** Never set: `abort` tests it but does not record that it ran. */
    var aborted: bool
    /** The engine calls made for this upload; the first is the `upload_object`
        call whose result holds the upload handle. */
    ghost var trace: Trace

    /** The buffer and the trace are as the constructor made them. */
    ghost predicate Ready()
      reads this
    {
      buf.Length == 1 && WellFormed(trace) && |trace.calls| >= 1 && trace.calls[0].UploadObject?
    }

    ghost predicate Valid()
      reads this
    {
      Ready() && !aborted
    }

    /** Wraps the upload `created` returned; neither committed nor aborted. */
    constructor(upload: Handle, ghost created: Call)
      requires created.UploadObject?
      ensures Valid() && fresh(buf)
      ensures this.upload == upload && !committed && trace == Record(NoCalls, created)
    {
      this.upload := upload;
      buf := new JByte[1];
      committed := false;
      aborted := false;
      trace := Record(NoCalls, created);
    }

    /** `abort()`: a no-op once aborted (which never happens); otherwise one
        abort call, whose error is thrown as an `IOException` and not released. */
    method Abort(abortError: Option<EngineError>) returns (r: Result<()>)
      requires Ready()
      modifies this
      ensures Ready() && committed == old(committed) && aborted == old(aborted)
      ensures old(aborted) ==> r == Ok(()) && trace == old(trace)
      ensures !old(aborted) ==> trace == Record(old(trace), UploadAbort(upload))
      ensures !old(aborted) ==>
        r == (if abortError.Some? then Err(IOException(ExceptionUtil.Raise(abortError.value))) else Ok(()))
    {
      if aborted {
        return Ok(());
      }
      trace := Record(trace, UploadAbort(upload));
      var thrown := ExceptionUtil.HandleError(abortError);
      if thrown.Some? {
        return Err(IOException(thrown.value));
      }
      r := Ok(());
    }

    /** The `catch (IOException e)` of both writes: abort, then rethrow `e`
        unless the abort threw. */
    method AbortAndRethrow(e: Exception, abortError: Option<EngineError>) returns (r: Result<()>)
      requires Valid()
      modifies this
      ensures Valid() && committed == old(committed)
      ensures trace == Record(old(trace), UploadAbort(upload))
      ensures r == Err(if abortError.Some? then IOException(ExceptionUtil.Raise(abortError.value)) else e)
    {
      var aborting := Abort(abortError);
      if aborting.Err? {
        return aborting;
      }
      r := Err(e);
    }

    /** `write(int b)`: the low eight bits of `b` go through the buffer as a
        one-byte write. */
    method WriteByte(b: int, writeReply: WriteResult, abortError: Option<EngineError>) returns (r: Result<()>)
      requires Valid()
      modifies this, buf
      ensures Valid() && committed == old(committed) && buf[0] == ToByte(b)
      ensures trace == AfterWrite(old(trace), upload, [ToByte(b)], writeReply.error)
      ensures r == (if writeReply.error.None? then Ok(()) else Err(WriteFailure(writeReply.error.value, abortError)))
    {
      buf[0] := ToByte(b);
      var n := |trace.calls|;
      assert buf[..] == [ToByte(b)];
      trace := Record(trace, UploadWrite(upload, buf[..], 1));
      var thrown := ExceptionUtil.HandleError(writeReply.error);
      if thrown.Some? {
        r := AbortAndRethrow(IOException(thrown.value), abortError);
        return;
      }
      trace := Release(trace, n);
      r := Ok(());
    }

    /** `write(b, off, len)`: null and out-of-range arguments throw before any
        call and without an abort; an empty range makes no call; otherwise
        `b[off..off + len]` is written in one call. */
    method Write(b: array?<JByte>, off: int, len: int, writeReply: WriteResult, abortError: Option<EngineError>)
      returns (r: Result<()>)
      requires Valid() && IsInt(off) && IsInt(len) && (b != null ==> b.Length <= INT_MAX)
      modifies this
      ensures Valid() && committed == old(committed)
      ensures b == null ==> r == Err(NullPointerException) && trace == old(trace)
      ensures b != null && !(0 <= off && 0 <= len && off + len <= b.Length) ==>
        r == Err(IndexOutOfBoundsException) && trace == old(trace)
      ensures b != null && 0 <= off && 0 <= len && off + len <= b.Length && len == 0 ==>
        r == Ok(()) && trace == old(trace)
      ensures b != null && 0 <= off && 0 < len && off + len <= b.Length ==>
        trace == AfterWrite(old(trace), upload, b[off..off + len], writeReply.error) &&
        r == (if writeReply.error.None? then Ok(()) else Err(WriteFailure(writeReply.error.value, abortError)))
    {
      if b == null {
        return Err(NullPointerException);
      }
      RangeCheckExact(b.Length, off, len);
      if OutOfRange(b.Length, off, len) {
        return Err(IndexOutOfBoundsException);
      } else if len == 0 {
        return Ok(());
      }
      var n := |trace.calls|;
      trace := Record(trace, UploadWrite(upload, b[off..off + len], len));
      var thrown := ExceptionUtil.HandleError(writeReply.error);
      if thrown.Some? {
        r := AbortAndRethrow(IOException(thrown.value), abortError);
        return;
      }
      trace := Release(trace, n);
      r := Ok(());
    }

    /** `commit()`: marks the stream committed before the call, so a failed
        commit is not aborted on close; the error is thrown and not released. */
    method Commit(error: Option<EngineError>) returns (r: Result<()>)
      requires Valid()
      modifies this
      ensures Valid() && committed
      ensures trace == Record(old(trace), UploadCommit(upload))
      ensures r == (if error.Some? then Err(ExceptionUtil.Raise(error.value)) else Ok(()))
    {
      committed := true;
      trace := Record(trace, UploadCommit(upload));
      var thrown := ExceptionUtil.HandleError(error);
      if thrown.Some? {
        return Err(thrown.value);
      }
      r := Ok(());
    }

    /** `info()`: the converted object; the result is released only on
        success, so an error or a null object leaks it. */
    method Info(reply: ObjectResult) returns (r: Result<ObjectInfo.ObjectInfo>)
      requires Valid()
      modifies this
      ensures Valid() && committed == old(committed)
      ensures var t := Record(old(trace), UploadInfo(upload));
        if reply.error.Some? then r == Err(ExceptionUtil.Raise(reply.error.value)) && trace == t
        else if reply.obj.None? then r == Err(NullPointerException) && trace == t
        else r == Ok(ObjectInfo.Convert(reply.obj.value)) && trace == Release(t, |old(trace.calls)|)
    {
      var n := |trace.calls|;
      trace := Record(trace, UploadInfo(upload));
      var thrown := ExceptionUtil.HandleError(reply.error);
      if thrown.Some? {
        return Err(thrown.value);
      }
      if reply.obj.None? {
        return Err(NullPointerException);
      }
      var info := ObjectInfo.New(reply.obj.value);
      trace := Release(trace, n);
      r := Ok(info);
    }

    /** The custom-metadata call carries every entry of `metadata` once, in
        some order, with the entry count. */
    ghost predicate SetsMetadata(c: Call, metadata: map<string, string>)
    {
      c.UploadSetCustomMetadata? && c.upload == upload && c.count == |metadata| &&
      |c.entries| == |metadata| && ObjectInfo.CustomMap(c.entries) == metadata
    }

    /** `setCustomMetadata(metadata)`: null changes nothing; an empty map fails
        on the first element of an empty array before any call; otherwise
        the entries are copied in the map's iteration order and sent in one
        call, whose error is thrown and not released. */
    method SetCustomMetadata(metadata: Option<map<string, string>>, error: Option<EngineError>) returns (r: Result<()>)
      requires Valid()
      modifies this
      ensures Valid() && committed == old(committed)
      ensures metadata.None? ==> r == Ok(()) && trace == old(trace)
      ensures metadata.Some? && |metadata.value| == 0 ==> r == Err(IndexOutOfBoundsException) && trace == old(trace)
      ensures metadata.Some? && |metadata.value| > 0 ==>
        var c := trace.calls[|trace.calls| - 1];
        trace == Record(old(trace), c) && SetsMetadata(c, metadata.value) &&
        r == (if error.Some? then Err(ExceptionUtil.Raise(error.value)) else Ok(()))
    {
      if metadata.None? {
        return Ok(());
      }
      var entries := EntryArray(metadata.value);
      if |entries| == 0 {
        return Err(IndexOutOfBoundsException);
      }
      trace := Record(trace, UploadSetCustomMetadata(upload, entries, |entries|));
      var thrown := ExceptionUtil.HandleError(error);
      if thrown.Some? {
        return Err(thrown.value);
      }
      r := Ok(());
    }

    /** `close()`: aborts an upload that was not committed, then releases the
        upload result whether or not the abort threw. Each close releases it
        once more, so a second close releases it twice. */
    method Close(abortError: Option<EngineError>) returns (r: Result<()>)
      requires Valid()
      modifies this
      ensures Valid() && committed == old(committed)
      ensures var t := if old(committed) then old(trace) else Record(old(trace), UploadAbort(upload));
        trace == Release(t, 0)
      ensures trace.frees[0] == old(trace.frees[0]) + 1
      ensures r == (if !old(committed) && abortError.Some? then Err(IOException(ExceptionUtil.Raise(abortError.value))) else Ok(()))
    {
      r := Ok(());
      label attempt: {
        if !committed {
          r := Abort(abortError);
          if r.Err? {
            break attempt;
          }
        }
      }
      // finally
      trace := Release(trace, 0);
    }
  }
}
