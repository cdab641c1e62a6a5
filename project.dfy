/** A project handle: every operation is one engine call (or none, when an
    option is malformed) on the handle, plus the release of its result. */
module Project {
  import opened Java
  import opened Native
  import ExceptionUtil
  import ObjectInfo
  import ObjectUploadOption
  import ObjectDownloadOption
  import ObjectListOption
  import ObjectOutputStream
  import BucketIterator
  import ObjectIterator
  import Lookahead

  /** The stream `downloadObject` returns. ObjectInputStream.java is not part
      of this model: the stream is only the download handle it wraps. */
  datatype ObjectInputStream = ObjectInputStream(download: Handle)

  /** The outcome of a call returning a bucket whose result is released in a
      `finally` block: released once, whether or not the error is thrown. */
  ghost predicate BucketCallReleased(trace: Trace, c: Call, reply: BucketResult, r: Result<RawBucket>)
  {
    trace.calls == [c] && AllReleasedOnce(trace) &&
    r == (if reply.error.Some? then Err(ExceptionUtil.Raise(reply.error.value)) else Ok(BucketIterator.ToInfo(reply.bucket)))
  }

  class Project {
    const project: Handle

    constructor(project: Handle)
      ensures this.project == project
    {
      this.project := project;
    }

    /** `statBucket`: the result is released only when there is no error, so
        a failing stat leaks it. */
    method StatBucket(bucket: string, reply: BucketResult) returns (r: Result<RawBucket>, ghost trace: Trace)
      ensures trace.calls == [Native.StatBucket(project, bucket)]
      ensures reply.error.Some? ==> r == Err(ExceptionUtil.Raise(reply.error.value)) && trace.frees == [0]
      ensures reply.error.None? ==> r == Ok(BucketIterator.ToInfo(reply.bucket)) && AllReleasedOnce(trace)
    {
      trace := Record(NoCalls, Native.StatBucket(project, bucket));
      var thrown := ExceptionUtil.HandleError(reply.error);
      if thrown.Some? {
        return Err(thrown.value), trace;
      }
      var bucketInfo := BucketIterator.ToInfo(reply.bucket);
      trace := Release(trace, 0);
      r := Ok(bucketInfo);
    }

    /** `createBucket`: the result is released once in the `finally` block. */
    method CreateBucket(bucket: string, reply: BucketResult) returns (r: Result<RawBucket>, ghost trace: Trace)
      ensures BucketCallReleased(trace, Native.CreateBucket(project, bucket), reply, r)
    {
      trace := Record(NoCalls, Native.CreateBucket(project, bucket));
      label attempt: {
        var thrown := ExceptionUtil.HandleError(reply.error);
        if thrown.Some? {
          r := Err(thrown.value);
          break attempt;
        }
        r := Ok(BucketIterator.ToInfo(reply.bucket));
      }
      // finally
      trace := Release(trace, 0);
    }

    /** `ensureBucket`: the result is released once in the `finally` block. */
    method EnsureBucket(bucket: string, reply: BucketResult) returns (r: Result<RawBucket>, ghost trace: Trace)
      ensures BucketCallReleased(trace, Native.EnsureBucket(project, bucket), reply, r)
    {
      trace := Record(NoCalls, Native.EnsureBucket(project, bucket));
      label attempt: {
        var thrown := ExceptionUtil.HandleError(reply.error);
        if thrown.Some? {
          r := Err(thrown.value);
          break attempt;
        }
        r := Ok(BucketIterator.ToInfo(reply.bucket));
      }
      // finally
      trace := Release(trace, 0);
    }

    /** `deleteBucket`: the result is released once in the `finally` block. */
    method DeleteBucket(bucket: string, reply: BucketResult) returns (r: Result<RawBucket>, ghost trace: Trace)
      ensures BucketCallReleased(trace, Native.DeleteBucket(project, bucket), reply, r)
    {
      trace := Record(NoCalls, Native.DeleteBucket(project, bucket));
      label attempt: {
        var thrown := ExceptionUtil.HandleError(reply.error);
        if thrown.Some? {
          r := Err(thrown.value);
          break attempt;
        }
        r := Ok(BucketIterator.ToInfo(reply.bucket));
      }
      // finally
      trace := Release(trace, 0);
    }

    /** `statObject`: the converted object; a null object throws from the
        conversion. The result is released once in every case. */
    method StatObject(bucket: string, key: string, reply: ObjectResult)
      returns (r: Result<ObjectInfo.ObjectInfo>, ghost trace: Trace)
      ensures trace.calls == [Native.StatObject(project, bucket, key)] && AllReleasedOnce(trace)
      ensures reply.error.Some? ==> r == Err(ExceptionUtil.Raise(reply.error.value))
      ensures reply.error.None? && reply.obj.None? ==> r == Err(NullPointerException)
      ensures reply.error.None? && reply.obj.Some? ==> r == Ok(ObjectInfo.Convert(reply.obj.value))
    {
      trace := Record(NoCalls, Native.StatObject(project, bucket, key));
      label attempt: {
        var thrown := ExceptionUtil.HandleError(reply.error);
        if thrown.Some? {
          r := Err(thrown.value);
          break attempt;
        }
        if reply.obj.None? {
          r := Err(NullPointerException);
          break attempt;
        }
        var info := ObjectInfo.New(reply.obj.value);
        r := Ok(info);
      }
      // finally
      trace := Release(trace, 0);
    }

    /** `deleteObject`: the deleted object, or null when the engine reports
        none. The result is released once in every case. */
    method DeleteObject(bucket: string, key: string, reply: ObjectResult)
      returns (r: Result<Option<ObjectInfo.ObjectInfo>>, ghost trace: Trace)
      ensures trace.calls == [Native.DeleteObject(project, bucket, key)] && AllReleasedOnce(trace)
      ensures reply.error.Some? ==> r == Err(ExceptionUtil.Raise(reply.error.value))
      ensures reply.error.None? && reply.obj.None? ==> r == Ok(None)
      ensures reply.error.None? && reply.obj.Some? ==> r == Ok(Some(ObjectInfo.Convert(reply.obj.value)))
    {
      trace := Record(NoCalls, Native.DeleteObject(project, bucket, key));
      label attempt: {
        var thrown := ExceptionUtil.HandleError(reply.error);
        if thrown.Some? {
          r := Err(thrown.value);
          break attempt;
        }
        if reply.obj.None? {
          r := Ok(None);
          break attempt;
        }
        var info := ObjectInfo.New(reply.obj.value);
        r := Ok(Some(info));
      }
      // finally
      trace := Release(trace, 0);
    }

    /** `uploadObject`: a null expiry date throws before any call; an error
        is thrown without releasing the result; otherwise the result passes to
        a new output stream, which releases it when closed. */
    method UploadObject(bucket: string, key: string, options: seq<ObjectUploadOption.ObjectUploadOption>, reply: UploadResult)
      returns (r: Result<ObjectOutputStream.ObjectOutputStream>, ghost trace: Trace)
      ensures !ObjectUploadOption.NoneThrows(options) ==> r == Err(NullPointerException) && trace == NoCalls
      ensures ObjectUploadOption.NoneThrows(options) ==>
        var uploadOptions := if |options| == 0 then None else Some(ObjectUploadOption.Fold(options));
        trace == Record(NoCalls, Native.UploadObject(project, bucket, key, uploadOptions))
      ensures ObjectUploadOption.NoneThrows(options) && reply.error.Some? ==>
        r == Err(ExceptionUtil.Raise(reply.error.value))
      ensures ObjectUploadOption.NoneThrows(options) && reply.error.None? ==>
        r.Ok? && fresh(r.value) && r.value.Valid() && r.value.upload == reply.upload &&
        !r.value.committed && r.value.trace == trace
    {
      trace := NoCalls;
      var uploadOptions := ObjectUploadOption.Internal(options);
      if uploadOptions.Err? {
        return Err(uploadOptions.error), trace;
      }
      var call := Native.UploadObject(project, bucket, key, uploadOptions.value);
      trace := Record(trace, call);
      var thrown := ExceptionUtil.HandleError(reply.error);
      if thrown.Some? {
        return Err(thrown.value), trace;
      }
      var stream := new ObjectOutputStream.ObjectOutputStream(reply.upload, call);
      r := Ok(stream);
    }

    /** `downloadObject`: an error is thrown without releasing the result;
        otherwise the download handle passes to a new input stream. */
    method DownloadObject(bucket: string, key: string, options: seq<ObjectDownloadOption.ObjectDownloadOption>, reply: DownloadResult)
      returns (r: Result<ObjectInputStream>, ghost trace: Trace)
      ensures var downloadOptions := if |options| == 0 then None else Some(ObjectDownloadOption.Fold(options));
        trace == Record(NoCalls, Native.DownloadObject(project, bucket, key, downloadOptions))
      ensures reply.error.Some? ==> r == Err(ExceptionUtil.Raise(reply.error.value))
      ensures reply.error.None? ==> r == Ok(ObjectInputStream(reply.download))
    {
      var downloadOptions := ObjectDownloadOption.Internal(options);
      trace := Record(NoCalls, Native.DownloadObject(project, bucket, key, downloadOptions));
      var thrown := ExceptionUtil.HandleError(reply.error);
      if thrown.Some? {
        return Err(thrown.value), trace;
      }
      r := Ok(ObjectInputStream(reply.download));
    }

    /** `listBuckets`: a new iterator over the cursor the listing call
        returns, here the listing `items` stopping with `terminal`. */
    method ListBuckets(items: seq<RawBucket>, terminal: Option<EngineError>)
      returns (it: BucketIterator.BucketIterator, ghost trace: Trace)
      ensures trace == Record(NoCalls, Native.ListBuckets(project))
      ensures fresh(it) && it.Snapshot() == Lookahead.Fresh(items, terminal) && it.calls == []
    {
      trace := Record(NoCalls, Native.ListBuckets(project));
      it := new BucketIterator.BucketIterator(items, terminal);
    }

    /** `listObjects`: a null cursor or prefix option throws before any call;
        otherwise a new iterator over the cursor the listing call returns. */
    method ListObjects(bucket: string, options: seq<ObjectListOption.ObjectListOption>,
                       items: seq<RawObject>, terminal: Option<EngineError>)
      returns (r: Result<ObjectIterator.ObjectIterator>, ghost trace: Trace)
      ensures |options| > 0 && !ObjectListOption.NoneThrows(options) ==>
        r == Err(NullPointerException) && trace == NoCalls
      ensures |options| == 0 || ObjectListOption.NoneThrows(options) ==>
        var listOptions := if |options| == 0 then None else Some(ObjectListOption.Fold(options));
        trace == Record(NoCalls, Native.ListObjects(project, bucket, listOptions)) &&
        r.Ok? && fresh(r.value) && r.value.Snapshot() == Lookahead.Fresh(items, terminal) && r.value.calls == []
    {
      trace := NoCalls;
      var listOptions := ObjectListOption.Internal(options);
      if listOptions.Err? {
        return Err(listOptions.error), trace;
      }
      trace := Record(trace, Native.ListObjects(project, bucket, listOptions.value));
      var it := new ObjectIterator.ObjectIterator(items, terminal);
      r := Ok(it);
    }

    /** `close()`: one close call; its error is thrown and not released. */
    method Close(error: Option<EngineError>) returns (r: Result<()>, ghost trace: Trace)
      ensures trace == Record(NoCalls, CloseProject(project))
      ensures r == (if error.Some? then Err(ExceptionUtil.Raise(error.value)) else Ok(()))
    {
      trace := Record(NoCalls, CloseProject(project));
      var thrown := ExceptionUtil.HandleError(error);
      if thrown.Some? {
        return Err(thrown.value), trace;
      }
      r := Ok(());
    }
  }
}
