/** The native engine boundary: the shapes of the structs exchanged with the
    storage engine, the engine calls the Java side makes, and a trace of those
    calls and of the releases of the result structs they return. What the engine
    computes is not modelled: each reply is an arbitrary value supplied by the
    caller of a model method. */
module Native {
  import opened Java

  /** An opaque engine handle (access, project, upload, download, key, iterator). */
  type Handle = nat

  /** The engine's error struct: a numeric code and an optional message. */
  datatype EngineError = EngineError(code: int, message: Option<string>)

  /** Engine configuration; a null string or a zero timeout means "engine default". */
  datatype Config = Config(userAgent: Option<string>, dialTimeoutMilliseconds: int, tempDirectory: Option<string>)

  /** The engine's permission struct: four 0/1 bytes and two second-resolution
      bounds, each "disabled when 0". */
  datatype CPermission = CPermission(
    allowDownload: JByte, allowUpload: JByte, allowList: JByte, allowDelete: JByte,
    notBefore: int, notAfter: int)

  /** One element of the share-prefix array handed to the engine. */
  datatype CSharePrefix = CSharePrefix(bucket: Option<string>, prefix: Option<string>)

  datatype RawBucket = RawBucket(name: string, created: int)

  /** System metadata as the engine reports it, times in seconds. */
  datatype RawSystemMetadata = RawSystemMetadata(created: int, expires: int, contentLength: int)

  /** A custom-metadata entry, key and value already decoded from UTF-8. */
  datatype RawEntry = RawEntry(key: string, value: string)

  /** The engine's object record; `custom` holds its `count` entries in order. */
  datatype RawObject = RawObject(key: string, isPrefix: JByte, system: RawSystemMetadata, custom: seq<RawEntry>)

  datatype ListObjectsOptions = ListObjectsOptions(
    prefix: Option<string>, cursor: Option<string>, recursive: JByte, system: JByte, custom: JByte)

  /** `expires` is in seconds; 0 or negative means no expiration. */
  datatype UploadOptions = UploadOptions(expires: int)

  /** A negative `length` means "until the end of the object". */
  datatype DownloadOptions = DownloadOptions(offset: int, length: int)

  // Result structs: a payload and a nullable error.
  datatype AccessResult = AccessResult(access: Handle, error: Option<EngineError>)
  datatype StringResult = StringResult(text: string, error: Option<EngineError>)
  datatype ProjectResult = ProjectResult(project: Handle, error: Option<EngineError>)
  datatype BucketResult = BucketResult(bucket: RawBucket, error: Option<EngineError>)
  datatype ObjectResult = ObjectResult(obj: Option<RawObject>, error: Option<EngineError>)
  datatype UploadResult = UploadResult(upload: Handle, error: Option<EngineError>)
  datatype DownloadResult = DownloadResult(download: Handle, error: Option<EngineError>)
  datatype WriteResult = WriteResult(bytesWritten: int, error: Option<EngineError>)
  datatype EncryptionKeyResult = EncryptionKeyResult(encryptionKey: Handle, error: Option<EngineError>)

  /** The engine entry points the Java side calls, with the arguments it passes. */
  datatype Call =
    | ParseAccess(serialized: string)
    | RequestAccessWithPassphrase(satellite: string, apiKey: string, passphrase: string)
    | ConfigRequestAccessWithPassphrase(config: Config, satellite: string, apiKey: string, passphrase: string)
    | AccessSerialize(access: Handle)
    | AccessShare(access: Handle, permission: CPermission, prefixes: seq<CSharePrefix>, count: int)
    | DeriveEncryptionKey(passphrase: string, salt: seq<JByte>, length: int)
    | AccessOverrideEncryptionKey(access: Handle, bucket: string, prefix: string, encryptionKey: Handle)
    | OpenProject(access: Handle)
    | ConfigOpenProject(config: Config, access: Handle)
    | CloseProject(project: Handle)
    | StatBucket(project: Handle, bucket: string)
    | CreateBucket(project: Handle, bucket: string)
    | EnsureBucket(project: Handle, bucket: string)
    | DeleteBucket(project: Handle, bucket: string)
    | StatObject(project: Handle, bucket: string, key: string)
    | DeleteObject(project: Handle, bucket: string, key: string)
    | UploadObject(project: Handle, bucket: string, key: string, uploadOptions: Option<UploadOptions>)
    | DownloadObject(project: Handle, bucket: string, key: string, downloadOptions: Option<DownloadOptions>)
    | UploadWrite(upload: Handle, bytes: seq<JByte>, length: int)
    | UploadCommit(upload: Handle)
    | UploadAbort(upload: Handle)
    | UploadInfo(upload: Handle)
    | UploadSetCustomMetadata(upload: Handle, entries: seq<RawEntry>, count: int)
    | ListBuckets(project: Handle)
    | ListObjects(project: Handle, bucket: string, listOptions: Option<ListObjectsOptions>)

  /** Whether the call returns a result struct that must be released with a
      `free_*_result` call (the others return a bare error pointer, or an
      iterator released by its own `close`). */
  predicate ReturnsResult(c: Call)
  {
    !(c.AccessOverrideEncryptionKey? || c.CloseProject? || c.UploadCommit? ||
      c.UploadAbort? || c.UploadSetCustomMetadata? || c.ListBuckets? || c.ListObjects?)
  }

  /** The engine calls made so far, in order, and for each call how many
      times the result struct it returned has been released. */
  datatype Trace = Trace(calls: seq<Call>, frees: seq<nat>)

  const NoCalls: Trace := Trace([], [])

  predicate WellFormed(t: Trace)
  {
    |t.calls| == |t.frees|
  }

  /** An engine call; its result has not been released yet. */
  function Record(t: Trace, c: Call): (u: Trace)
    requires WellFormed(t)
    ensures WellFormed(u)
  {
    Trace(t.calls + [c], t.frees + [0])
  }

  /** A `free_*_result` call on the result of the call at position `i`. */
  function Release(t: Trace, i: nat): (u: Trace)
    requires WellFormed(t) && i < |t.calls|
    ensures WellFormed(u)
  {
    Trace(t.calls, t.frees[i := t.frees[i] + 1])
  }

  /** Every result struct returned is released exactly once, and nothing else is released. */
  predicate AllReleasedOnce(t: Trace)
  {
    WellFormed(t) &&
    forall i :: 0 <= i < |t.calls| ==> t.frees[i] == (if ReturnsResult(t.calls[i]) then 1 else 0)
  }
}
