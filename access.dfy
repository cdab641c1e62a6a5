/** Access grants: a serialized grant held on the Java side, parsed into a
    temporary engine handle whenever the engine needs it. */
module Access {
  import opened Java
  import opened Native
  import ExceptionUtil
  import Permission

  /** `Access` holds only the serialized grant; it is never changed after construction. */
  datatype Access = Access(serializedAccess: string)

  /** A bucket and an optional key prefix; the one-argument constructor leaves the prefix null. */
  datatype SharePrefix = SharePrefix(bucket: Option<string>, prefix: Option<string>)

  /** A passphrase and a salt from which the engine derives an encryption key. */
  datatype EncryptionKey = EncryptionKey(passphrase: string, salt: seq<JByte>)

  /** `serialize()`: the stored string, without any engine call. */
  function Serialize(access: Access): (s: string)
    ensures Access(s) == access
  {
    access.serializedAccess
  }

  /** `parse`: one parse call; on an error the exception is thrown before the
      result is released, so it leaks; on success the result is released once
      and the new access holds the string it was given. */
  method Parse(serialized: string, reply: AccessResult) returns (r: Result<Access>, ghost trace: Trace)
    ensures trace.calls == [ParseAccess(serialized)]
    ensures reply.error.Some? ==> r == Err(ExceptionUtil.Raise(reply.error.value)) && trace.frees == [0]
    ensures reply.error.None? ==> r.Ok? && Serialize(r.value) == serialized && AllReleasedOnce(trace)
  {
    trace := Record(NoCalls, ParseAccess(serialized));
    var thrown := ExceptionUtil.HandleError(reply.error);
    if thrown.Some? {
      return Err(thrown.value), trace;
    }
    trace := Release(trace, 0);
    r := Ok(Access(serialized));
  }

  /** The prefix argument of the share call is a copy of the prefixes, in
      order; with no prefixes it is a single empty struct (and the count is 0). */
  ghost predicate CopiesPrefixes(arg: seq<CSharePrefix>, prefixes: seq<SharePrefix>)
  {
    && (|prefixes| == 0 ==> arg == [CSharePrefix(None, None)])
    && (|prefixes| > 0 ==>
          |arg| == |prefixes| &&
          forall i :: 0 <= i < |prefixes| ==> arg[i] == CSharePrefix(prefixes[i].bucket, prefixes[i].prefix))
  }

  /** Builds the engine's prefix array, copying bucket and prefix index by index. */
  method PrefixArray(prefixes: seq<SharePrefix>) returns (firstPrefix: seq<CSharePrefix>)
    ensures CopiesPrefixes(firstPrefix, prefixes)
  {
    firstPrefix := [CSharePrefix(None, None)];
    if |prefixes| > 0 {
      var cPrefixes := new CSharePrefix[|prefixes|](_ => CSharePrefix(None, None));
      for i := 0 to |prefixes|
        invariant forall j :: 0 <= j < i ==> cPrefixes[j] == CSharePrefix(prefixes[j].bucket, prefixes[j].prefix)
      {
        cPrefixes[i] := CSharePrefix(prefixes[i].bucket, prefixes[i].prefix);
      }
      firstPrefix := cPrefixes[..];
    }
  }

  /** The share call made on `handle` with the permission and the copied prefixes. */
  ghost predicate SharesWith(c: Call, handle: Handle, permission: Permission.Permission, prefixes: seq<SharePrefix>)
  {
    c.AccessShare? && c.access == handle && c.permission == permission.cPermission &&
    c.count == |prefixes| && CopiesPrefixes(c.prefixes, prefixes)
  }

  /** `share`: parse this grant, share it, serialize the shared grant. The
      receiver is not changed; the result is a new access holding the engine's
      serialization. Every result obtained is released exactly once, in the
      `finally` block, whichever step fails. */
  method Share(access: Access, permission: Permission.Permission, prefixes: seq<SharePrefix>,
               parseReply: AccessResult, shareReply: AccessResult, serializeReply: StringResult)
    returns (r: Result<Access>, ghost trace: Trace)
    ensures AllReleasedOnce(trace)
    ensures |trace.calls| >= 1 && trace.calls[0] == ParseAccess(access.serializedAccess)
    ensures parseReply.error.Some? ==>
      r == Err(ExceptionUtil.Raise(parseReply.error.value)) && |trace.calls| == 1
    ensures parseReply.error.None? ==>
      |trace.calls| >= 2 && SharesWith(trace.calls[1], parseReply.access, permission, prefixes)
    ensures parseReply.error.None? && shareReply.error.Some? ==>
      r == Err(ExceptionUtil.Raise(shareReply.error.value)) && |trace.calls| == 2
    ensures parseReply.error.None? && shareReply.error.None? ==>
      |trace.calls| == 3 && trace.calls[2] == AccessSerialize(shareReply.access)
    ensures parseReply.error.None? && shareReply.error.None? && serializeReply.error.Some? ==>
      r == Err(ExceptionUtil.Raise(serializeReply.error.value))
    ensures r.Ok? <==> parseReply.error.None? && shareReply.error.None? && serializeReply.error.None?
    ensures r.Ok? ==> r.value == Access(serializeReply.text)
  {
    var cPermission := permission.cPermission;
    var accessResult: Option<AccessResult> := None;
    var shareResult: Option<AccessResult> := None;
    var stringResult: Option<StringResult> := None;
    var firstPrefix := PrefixArray(prefixes);
    trace := NoCalls;
    label attempt: {
      trace := Record(trace, ParseAccess(access.serializedAccess));
      accessResult := Some(parseReply);
      var thrown := ExceptionUtil.HandleError(parseReply.error);
      if thrown.Some? {
        r := Err(thrown.value);
        break attempt;
      }
      trace := Record(trace, AccessShare(parseReply.access, cPermission, firstPrefix, |prefixes|));
      shareResult := Some(shareReply);
      thrown := ExceptionUtil.HandleError(shareReply.error);
      if thrown.Some? {
        r := Err(thrown.value);
        break attempt;
      }
      trace := Record(trace, AccessSerialize(shareReply.access));
      stringResult := Some(serializeReply);
      thrown := ExceptionUtil.HandleError(serializeReply.error);
      if thrown.Some? {
        r := Err(thrown.value);
        break attempt;
      }
      r := Ok(Access(serializeReply.text));
    }
    // finally
    if accessResult.Some? {
      trace := Release(trace, 0);
    }
    if shareResult.Some? {
      trace := Release(trace, 1);
    }
    if stringResult.Some? {
      trace := Release(trace, 2);
    }
  }

  /** `overrideEncryptionKey`: parse this grant into a temporary handle, derive
      the key from the passphrase and the salt (passed byte for byte, with its
      length), override the key on the temporary handle. The receiver is not
      changed. The parse and key results are released exactly once in the
      `finally` block; the error returned by the override call is not. */
  method OverrideEncryptionKey(access: Access, bucket: string, prefix: string, encryptionKey: EncryptionKey,
                               parseReply: AccessResult, deriveReply: EncryptionKeyResult,
                               overrideError: Option<EngineError>)
    returns (r: Result<()>, ghost trace: Trace)
    ensures AllReleasedOnce(trace)
    ensures |trace.calls| >= 1 && trace.calls[0] == ParseAccess(access.serializedAccess)
    ensures parseReply.error.Some? ==>
      r == Err(ExceptionUtil.Raise(parseReply.error.value)) && |trace.calls| == 1
    ensures parseReply.error.None? ==>
      |trace.calls| >= 2 &&
      trace.calls[1] == DeriveEncryptionKey(encryptionKey.passphrase, encryptionKey.salt, |encryptionKey.salt|)
    ensures parseReply.error.None? && deriveReply.error.Some? ==>
      r == Err(ExceptionUtil.Raise(deriveReply.error.value)) && |trace.calls| == 2
    ensures parseReply.error.None? && deriveReply.error.None? ==>
      |trace.calls| == 3 &&
      trace.calls[2] == AccessOverrideEncryptionKey(parseReply.access, bucket, prefix, deriveReply.encryptionKey) &&
      r == (if overrideError.Some? then Err(ExceptionUtil.Raise(overrideError.value)) else Ok(()))
  {
    var accessResult: Option<AccessResult> := None;
    var encKeyResult: Option<EncryptionKeyResult> := None;
    trace := NoCalls;
    label attempt: {
      trace := Record(trace, ParseAccess(access.serializedAccess));
      accessResult := Some(parseReply);
      var thrown := ExceptionUtil.HandleError(parseReply.error);
      if thrown.Some? {
        r := Err(thrown.value);
        break attempt;
      }
      var salt := encryptionKey.salt;
      trace := Record(trace, DeriveEncryptionKey(encryptionKey.passphrase, salt, |salt|));
      encKeyResult := Some(deriveReply);
      thrown := ExceptionUtil.HandleError(deriveReply.error);
      if thrown.Some? {
        r := Err(thrown.value);
        break attempt;
      }
      trace := Record(trace, AccessOverrideEncryptionKey(parseReply.access, bucket, prefix, deriveReply.encryptionKey));
      thrown := ExceptionUtil.HandleError(overrideError);
      if thrown.Some? {
        r := Err(thrown.value);
        break attempt;
      }
      r := Ok(());
    }
    // finally
    if accessResult.Some? {
      trace := Release(trace, 0);
    }
    if encKeyResult.Some? {
      trace := Release(trace, 1);
    }
  }
}
