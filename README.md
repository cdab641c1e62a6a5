# uplink-java, modelled in Dafny

uplink-java is the Java binding of the Storj uplink library. The Java side holds:
- access grants;
- a project handle with bucket and object operations;
- an output stream for uploads;
- lookahead iterators over bucket and object listings;
- option builders and value classes for object metadata.

Every operation ends in calls into the native engine (uplink-c) through JNA.

This project models the Java side's control flow, results and releases, and models the engine as an oracle. Every engine reply is a parameter of the operation that receives it:
- a result struct with a payload and a nullable error;
- a bare nullable error;
- a listing cursor given as its items and the error it stops with.

A ghost `Native.Trace` records each engine call and how many times its result struct was released. The contracts can therefore say, path by path, which results are released exactly once and which leak.

Modules follow the Java classes:

| module | what it models |
|---|---|
| `Java` | Java values the code relies on: nullable references, the exceptions thrown, `int`/`long` wrap-around, the `(byte)` cast, and `/ 1000` with truncation toward zero |
| `Native` | the engine's structs, the calls made into it, and the call/release trace |
| `ExceptionUtil` | `handleError` |
| `SystemMetadata`, `ObjectInfo` | conversion from engine records, `equals`, `hashCode`, `compareTo` |
| `Permission` | the mutable `Builder` and the encoding into the engine's permission struct |
| `ObjectListOption`, `UplinkOption`, `ObjectDownloadOption`, `ObjectUploadOption` | the option factories and the `internal` loops that fold options into a fresh struct |
| `Access` | `parse`, `serialize`, `share` and `overrideEncryptionKey`, with their `finally` releases |
| `Uplink`, `Project` | the entry point and the project handle, as call/check/release sequences |
| `ObjectOutputStream` | the upload stream, a class with `committed`, `aborted` and the one-byte buffer |
| `Lookahead`, `BucketIterator`, `ObjectIterator` | one state machine for the cached `hasNext` flag and one-item buffer, shared by the two iterator classes. Each class method is proved equal to a step function, and the protocol theorems are proved about those functions. |

A `try { … } finally { … }` block is written as a labelled block that every throwing path leaves with `break`, followed by the `finally` code. A nullable Java local becomes an `Option` variable.

Where the code departs from what a reader of its method names and Javadoc might expect, the model follows the code:
- **Error mapping.** Errors are not sorted into kinds by their code. Every error becomes one `StorjException` carrying the engine's message, or the decimal code when there is no message.
- **Result release.** Results are not released on every path. Several error paths throw before the release, and the bare error pointers are never released. The contracts below say which paths these are.
- **Closing a project.** `Project.close` has no "already closed" latch: each call closes again.
- **Upload stream lifecycle.**
  - Writes after commit or abort are not rejected locally.
  - `abort` is guarded by `aborted`, which is never set, so every abort reaches the engine.
  - An abort error raised inside `close` or after a failed write is thrown, and it replaces the write's own error.
- **Empty credential.** `openProject(null)` parses the empty string.
- **Iterator errors.** A cursor error is thrown by `hasNext()`, after which `hasNext()` answers false. Under the `hasNext`-then-`next` protocol, when the listing stops with an error, the last item is never returned: it is buffered, and the `next()` that would return it throws instead. A caller that only calls `next()` gets every item, and the following `next()` throws. After the end, the buffer keeps the last item, so `next()` returns it again.

## Model

| member | source | states |
|---|---|---|
| ExceptionUtil.HandleError | src/main/java/io/storj/ExceptionUtil.java:5-13 | a null error throws nothing and a non-null error always throws; the thrown exception is a `StorjException`; a non-null engine message is used verbatim |
| ExceptionUtil.NatToDecimal | src/main/java/io/storj/ExceptionUtil.java:7 | the rendering of a code is a non-empty string of decimal digits with no leading zero; it starts with '0' only for 0 itself |
| ExceptionUtil.DecimalString | src/main/java/io/storj/ExceptionUtil.java:7 | `"" + code` is non-empty and starts with '-' exactly for a negative code |
| ExceptionUtil.DecimalStringCanonical | src/main/java/io/storj/ExceptionUtil.java:7 | `"" + code` has the canonical shape: digits without a leading zero, optionally after '-', and never "-0" |
| ExceptionUtil.CanonicalDigitsUnique | src/main/java/io/storj/ExceptionUtil.java:7 | a canonical run of digits is the rendering of the number it denotes |
| ExceptionUtil.CanonicalRenderingUnique | src/main/java/io/storj/ExceptionUtil.java:7 | a canonical string that reads back as a code is exactly `"" + code` |
| ExceptionUtil.NatToDecimalRoundTrip | src/main/java/io/storj/ExceptionUtil.java:7 | reading the digits back gives the number rendered |
| ExceptionUtil.DecimalRoundTrip | src/main/java/io/storj/ExceptionUtil.java:7 | `"" + code` can be read back as the code, negative codes included |
| ExceptionUtil.CodeRecoverableFromMessage | src/main/java/io/storj/ExceptionUtil.java:6-11 | with no engine message, the exception's message reads back as the code, is canonical (no leading zero, no "-0"), and is the only canonical string that reads back as the code: exactly Java's `"" + code` |
| ExceptionUtil.NoClassificationByCode | src/main/java/io/storj/ExceptionUtil.java:11 | two errors with the same message give the same exception whatever their codes: nothing classifies by code |
| SystemMetadata.FromNative | src/main/java/io/storj/SystemMetadata.java:15-19 | `created` and `expires` are the engine's seconds times 1000 (wrapped as a `long`); `contentLength` is copied |
| SystemMetadata.SecondsRoundTrip | src/main/java/io/storj/SystemMetadata.java:16-17 | without overflow, the dates divided by 1000 give back the engine's seconds |
| SystemMetadata.Equals | src/main/java/io/storj/SystemMetadata.java:56-64 | `equals` holds exactly when the two metadata are equal apart from `created` |
| SystemMetadata.CompareLong | src/main/java/io/storj/SystemMetadata.java:73-78 | `Date.compareTo`/`Long.compare` answer -1, 0 or 1 with the sign of the difference |
| SystemMetadata.Compare | src/main/java/io/storj/SystemMetadata.java:68-83 | `compareTo` is 0 exactly when `equals` holds, and lies in -1..1 |
| SystemMetadata.CompareIsLexicographic | src/main/java/io/storj/SystemMetadata.java:73-82 | the order is by `expires`, then by `contentLength` |
| SystemMetadata.CreatedIgnored | src/main/java/io/storj/SystemMetadata.java:56-64 | changing `created` changes neither `equals` nor `compareTo` |
| SystemMetadata.CompareAntisymmetric | src/main/java/io/storj/SystemMetadata.java:68-83 | `compare(a, b) == -compare(b, a)` |
| SystemMetadata.CompareTransitive | src/main/java/io/storj/SystemMetadata.java:68-83 | `a <= b` and `b <= c` give `a <= c` |
| ObjectInfo.CustomMapKeys | src/main/java/io/storj/ObjectInfo.java:26-35 | the custom map has exactly the keys of the engine's entries |
| ObjectInfo.CustomMapLastWins | src/main/java/io/storj/ObjectInfo.java:28-34 | for a repeated key the value of its last entry wins |
| ObjectInfo.Convert | src/main/java/io/storj/ObjectInfo.java:21-36 | the key is copied; `isPrefix` holds iff the flag byte is 1; the system metadata is converted; the map keys are the entry keys; a count of 0 gives an empty map |
| ObjectInfo.New | src/main/java/io/storj/ObjectInfo.java:21-36 | the constructor's `put` loop builds exactly `Convert` |
| ObjectInfo.Equals | src/main/java/io/storj/ObjectInfo.java:84-92 | `equals` holds exactly when the two infos are equal apart from the creation date in their system metadata |
| ObjectInfo.StringHash | src/main/java/io/storj/ObjectInfo.java:101 | `String.hashCode` is an `int` |
| ObjectInfo.Hash | src/main/java/io/storj/ObjectInfo.java:100-102 | `hashCode` is an `int` computed from the key |
| ObjectInfo.HashConsistentWithEquals | src/main/java/io/storj/ObjectInfo.java:84-102 | infos with the same key, in particular equal infos, have equal hashes |
| ObjectInfo.StringCompare | src/main/java/io/storj/ObjectInfo.java:118 | `String.compareTo` is 0 exactly for equal strings |
| ObjectInfo.StringCompareAntisymmetric | src/main/java/io/storj/ObjectInfo.java:118 | `String.compareTo` is antisymmetric |
| ObjectInfo.Compare | src/main/java/io/storj/ObjectInfo.java:112-133 | with different prefix flags the object sorts first; a result of 0 needs equal keys |
| ObjectInfo.CompareZeroIffEquals | src/main/java/io/storj/ObjectInfo.java:112-133 | `compareTo` is 0 exactly when `equals` holds |
| ObjectInfo.ObjectsBeforePrefixes | src/main/java/io/storj/ObjectInfo.java:113-116 | an object sorts before a prefix, in both directions of the comparison |
| ObjectInfo.KeyThenSystemMetadata | src/main/java/io/storj/ObjectInfo.java:118-127 | on a prefix-flag tie the key decides, then the system metadata |
| ObjectInfo.StringCompareProperPrefix | src/main/java/io/storj/ObjectInfo.java:118 | `String.compareTo` of a key against a longer key it is a prefix of is minus the length of the extra part |
| ObjectInfo.PrefixKeySortsFirst | src/main/java/io/storj/ObjectInfo.java:112-121 | with equal prefix flags, an info whose key is a proper prefix of the other's sorts first, in both directions of the comparison, whatever the metadata |
| ObjectInfo.CompareAntisymmetricUnlessOnlyCustomDiffers | src/main/java/io/storj/ObjectInfo.java:112-133 | `compareTo` is antisymmetric except when only the custom maps differ |
| ObjectInfo.OnlyCustomDiffersBothLess | src/main/java/io/storj/ObjectInfo.java:129-132 | when only the custom maps differ, each info is "less" than the other (-1 both ways) |
| Permission.Allow | src/main/java/io/storj/Permission.java:48-86 | an `allow*` setter sets its own flag and leaves the other flags and both bounds alone |
| Permission.Encode | src/main/java/io/storj/Permission.java:12-24 | each capability byte is 1 for an allowed capability and 0 otherwise; each set bound is its milliseconds / 1000 and an unset bound is 0 |
| Permission.FlagsRoundTrip | src/main/java/io/storj/Permission.java:14-17 | each `allow_*` byte is 1 iff the flag was set and 0 otherwise |
| Permission.BoundTruncatedToSeconds | src/main/java/io/storj/Permission.java:18-23 | a set `notAfter` and a set `notBefore` are each their milliseconds / 1000, truncated toward zero |
| Permission.UnsetLooksLikeEpoch | src/main/java/io/storj/Permission.java:18-23 | an unset bound encodes like a date less than one second from the epoch |
| Permission.InvertedWindowPassesThrough | src/main/java/io/storj/Permission.java:18-23 | `notBefore` after `notAfter` is not rejected: the encoded bounds keep their order (not strictly, after truncation to seconds) |
| Permission.AllowIdempotent | src/main/java/io/storj/Permission.java:48-86 | allowing a capability twice is allowing it once |
| Permission.AllowCommutes | src/main/java/io/storj/Permission.java:48-86 | allowing two capabilities in either order gives the same builder |
| Permission.Builder.constructor | src/main/java/io/storj/Permission.java:33-40 | a fresh builder allows nothing and has no bounds |
| Permission.Builder.AllowDownload | src/main/java/io/storj/Permission.java:48-51 | sets the download flag and returns the same builder |
| Permission.Builder.AllowUpload | src/main/java/io/storj/Permission.java:60-63 | sets the upload flag and returns the same builder |
| Permission.Builder.AllowList | src/main/java/io/storj/Permission.java:71-74 | sets the list flag and returns the same builder |
| Permission.Builder.AllowDelete | src/main/java/io/storj/Permission.java:83-86 | sets the delete flag and returns the same builder |
| Permission.Builder.NotAfter | src/main/java/io/storj/Permission.java:97-100 | the last call wins; null returns the bound to unset, which encodes as 0 |
| Permission.Builder.NotBefore | src/main/java/io/storj/Permission.java:111-114 | the last call wins; null returns the bound to unset, which encodes as 0 |
| Permission.Builder.Build | src/main/java/io/storj/Permission.java:12-24 | the permission is the builder's encoding; a capability byte is 1 iff that capability was allowed |
| ObjectListOption.Apply | src/main/java/io/storj/ObjectListOption.java:82-92 | an option overwrites its own field of the struct and no other |
| ObjectListOption.Internal | src/main/java/io/storj/ObjectListOption.java:75-96 | no options give null; a null cursor or prefix throws a null-pointer error; otherwise the result is the fold of the options over a fresh struct |
| ObjectListOption.LastOccurrenceWins | src/main/java/io/storj/ObjectListOption.java:81-93 | for a repeated key the last occurrence wins, and strings are copied verbatim |
| ObjectListOption.AbsentKeepsDefault | src/main/java/io/storj/ObjectListOption.java:80 | a key no option mentions keeps a null string or a 0 byte |
| ObjectListOption.FlagSetIffPresent | src/main/java/io/storj/ObjectListOption.java:53-91 | with factory-built options a flag byte is 1 iff its option is present, else 0 |
| ObjectListOption.DifferentKeysCommute | src/main/java/io/storj/ObjectListOption.java:81-93 | two adjacent options with different keys can be swapped without changing the struct |
| UplinkOption.Apply | src/main/java/io/storj/UplinkOption.java:59-65 | an option overwrites its own config field and no other |
| UplinkOption.Internal | src/main/java/io/storj/UplinkOption.java:55-68 | a fresh config even for no options; a null string option throws; otherwise the result is the fold of the options |
| UplinkOption.LastOccurrenceWins | src/main/java/io/storj/UplinkOption.java:58-66 | for a repeated key the last occurrence wins; strings and the timeout are copied as given |
| UplinkOption.AbsentKeepsDefault | src/main/java/io/storj/UplinkOption.java:56 | a key no option mentions keeps null or a zero timeout |
| ObjectDownloadOption.Apply | src/main/java/io/storj/ObjectDownloadOption.java:51-55 | an option overwrites its own field and no other |
| ObjectDownloadOption.Internal | src/main/java/io/storj/ObjectDownloadOption.java:44-59 | null iff there are no options; otherwise the result is the fold of the options over a struct of zeros |
| ObjectDownloadOption.LastOccurrenceWins | src/main/java/io/storj/ObjectDownloadOption.java:50-56 | for a repeated key the last occurrence wins, and values are copied as given |
| ObjectDownloadOption.AbsentStaysZero | src/main/java/io/storj/ObjectDownloadOption.java:49 | with only an offset the length stays 0, not the negative "until the end" value, and with only a length the offset stays 0 |
| ObjectUploadOption.Internal | src/main/java/io/storj/ObjectUploadOption.java:36-49 | no options give null; a null date throws a null-pointer error; otherwise the result is the fold over a struct whose `expires` starts at 0 |
| ObjectUploadOption.LastOccurrenceWins | src/main/java/io/storj/ObjectUploadOption.java:42-46 | the last `expires` wins, as its milliseconds / 1000 truncated toward zero |
| Access.Serialize | src/main/java/io/storj/Access.java:29-31 | the serialized string rebuilds the same access: no engine call is involved |
| Access.Parse | src/main/java/io/storj/Access.java:40-45 | one parse call; on success the access serializes back to the string given and the result is released once; on an error the exception is thrown and the result is never released |
| Access.PrefixArray | src/main/java/io/storj/Access.java:68-76 | the share call's prefix array copies bucket and prefix index by index, in order; with no prefixes it is one empty struct |
| Access.Share | src/main/java/io/storj/Access.java:62-100 | parse, share with the permission, the copied prefixes and count = number of prefixes, then serialize; every result obtained is released exactly once on every path; it succeeds iff all three calls succeed and returns a new access holding the engine's serialization |
| Access.OverrideEncryptionKey | src/main/java/io/storj/Access.java:114-136 | parse into a temporary handle, derive the key from the passphrase and the salt byte for byte with length = salt length, override on the temporary handle; the parse and key results are released exactly once on every path |
| Uplink.Uplink.constructor | src/main/java/io/storj/Uplink.java:10-12 | the options are kept as given |
| Uplink.Uplink.OpenProject | src/main/java/io/storj/Uplink.java:21-44 | a null access is parsed as ""; with no options the plain open call, otherwise the config call with the folded options; the parse result is released exactly once on every path, a null option included; the project result is never released; a new project holds the engine's handle |
| Uplink.Uplink.RequestAccessWithPassphrase | src/main/java/io/storj/Uplink.java:61-81 | plain or config request by the options; a null option throws before any call; a request error throws with nothing released; otherwise the grant is serialized and both results are released exactly once |
| Project.Project.constructor | src/main/java/io/storj/Project.java:24-26 | the project holds the handle it was given |
| Project.Project.StatBucket | src/main/java/io/storj/Project.java:35-42 | one stat call; the result is released once on success and never on an error |
| Project.Project.CreateBucket | src/main/java/io/storj/Project.java:51-62 | one create call; the result is released exactly once whether or not the error is thrown; an error always throws and no bucket is returned |
| Project.Project.EnsureBucket | src/main/java/io/storj/Project.java:71-82 | one ensure call; the result is released exactly once whether or not the error is thrown |
| Project.Project.DeleteBucket | src/main/java/io/storj/Project.java:95-106 | one delete call; the result is released exactly once whether or not the error is thrown |
| Project.Project.StatObject | src/main/java/io/storj/Project.java:116-127 | one stat call released exactly once; an error throws; a null object throws from the conversion; otherwise the converted object |
| Project.Project.DeleteObject | src/main/java/io/storj/Project.java:137-153 | one delete call released exactly once; an error throws; no object gives null without an exception |
| Project.Project.UploadObject | src/main/java/io/storj/Project.java:164-170 | a null date throws before any call; one upload call with the folded options; an error throws with the result unreleased; otherwise a new uncommitted stream takes over the upload handle and the unreleased result |
| Project.Project.DownloadObject | src/main/java/io/storj/Project.java:181-187 | one download call with the folded options (null when there are none); an error throws with the result unreleased; otherwise the download handle passes to the stream |
| Project.Project.ListBuckets | src/main/java/io/storj/Project.java:84-86 | one listing call and a fresh iterator, with no error check |
| Project.Project.ListObjects | src/main/java/io/storj/Project.java:196-198 | a null cursor or prefix throws before any call; otherwise one listing call with the folded options and a fresh iterator, with no error check |
| Project.Project.Close | src/main/java/io/storj/Project.java:200-204 | every invocation makes one close call; its error is thrown |
| ObjectOutputStream.RangeCheckExact | src/main/java/io/storj/ObjectOutputStream.java:103-105 | for `int` arguments the check in 32-bit arithmetic rejects exactly the ranges outside the array, including an overflowing `off + len` |
| ObjectOutputStream.WriteReleasesOnlyOnSuccess | src/main/java/io/storj/ObjectOutputStream.java:110-122 | a write adds its call and releases its result exactly when it succeeded; a failed write is followed by one abort; earlier calls and releases are untouched |
| ObjectOutputStream.WriteFailure | src/main/java/io/storj/ObjectOutputStream.java:119-122 | a failed write throws an `IOException` wrapping a `StorjException`: the abort's error when the abort failed, else the write's own error |
| ObjectOutputStream.AbortErrorHidesWriteError | src/main/java/io/storj/ObjectOutputStream.java:119-122 | when the abort fails, the thrown exception does not depend on the write's error |
| ObjectOutputStream.EntryArray | src/main/java/io/storj/ObjectOutputStream.java:162-185 | the entry array holds every map entry exactly once, as many entries as the map has |
| ObjectOutputStream.ObjectOutputStream.constructor | src/main/java/io/storj/ObjectOutputStream.java:23-29 | neither committed nor aborted, a one-byte buffer, the upload call as the first call |
| ObjectOutputStream.ObjectOutputStream.Abort | src/main/java/io/storj/ObjectOutputStream.java:191-202 | once aborted, nothing happens; otherwise one abort call whose error is thrown as an `IOException`; `aborted` is not set |
| ObjectOutputStream.ObjectOutputStream.AbortAndRethrow | src/main/java/io/storj/ObjectOutputStream.java:119-122 | after a write error, abort and rethrow, unless the abort's exception replaces the write's |
| ObjectOutputStream.ObjectOutputStream.WriteByte | src/main/java/io/storj/ObjectOutputStream.java:49-66 | one write of the single byte equal to the low eight bits of `b`; released on success; abort and rethrow on an error |
| ObjectOutputStream.ObjectOutputStream.Write | src/main/java/io/storj/ObjectOutputStream.java:99-123 | a null array or a bad range throws before any call and without an abort; `len == 0` makes no call; otherwise exactly one write of `b[off..off + len)`, released on success, aborted on an error |
| ObjectOutputStream.ObjectOutputStream.Commit | src/main/java/io/storj/ObjectOutputStream.java:131-135 | `committed` is set even when the commit fails; one commit call whose error is thrown |
| ObjectOutputStream.ObjectOutputStream.Info | src/main/java/io/storj/ObjectOutputStream.java:143-149 | one info call; the converted object, with the result released; an error or a null object throws and leaks the result |
| ObjectOutputStream.ObjectOutputStream.SetCustomMetadata | src/main/java/io/storj/ObjectOutputStream.java:157-189 | null is a no-op; an empty map throws an index error before any call; otherwise one call carrying every entry once with count = map size |
| ObjectOutputStream.ObjectOutputStream.Close | src/main/java/io/storj/ObjectOutputStream.java:216-226 | aborts iff not committed; the upload result is released in every case, even when the abort throws, and once more on each further close |
| Lookahead.HasNextStep | src/main/java/io/storj/BucketIterator.java:17-35 | with the flag set, no cursor call and the cached answer; otherwise one advance, fetching and releasing the next item or checking the error; the flag is set afterwards |
| Lookahead.NextStep | src/main/java/io/storj/BucketIterator.java:37-72 | every `next()` advances the cursor exactly once, fetching and releasing the next item or checking the error, and sets the flag to whether an item came |
| Lookahead.HasNextAdvancesAtMostOnce | src/main/java/io/storj/BucketIterator.java:19-34 | a second `hasNext()` makes no call and changes nothing; it repeats the answer, or answers false after a throw |
| Lookahead.NextWithBuffer | src/main/java/io/storj/BucketIterator.java:39-54 | with a buffered item, `next()` returns it and buffers the following one |
| Lookahead.NextWithoutBuffer | src/main/java/io/storj/BucketIterator.java:55-71 | without a buffered item, `next()` returns the fresh item unbuffered, or null at the end |
| Lookahead.ErrorDiscardsBufferedItem | src/main/java/io/storj/BucketIterator.java:46-54 | at the end with an error, `next()` throws and the buffered item is not returned |
| Lookahead.StaleBufferRepeats | src/main/java/io/storj/BucketIterator.java:39-54 | after the end the buffer is not cleared: every further `next()` returns the last item again |
| Lookahead.BareNextLeavesStaleTrue | src/main/java/io/storj/BucketIterator.java:55-61 | a bare `next()` taking the last item leaves the flag true, so `hasNext()` answers true and the `next()` after it returns null |
| Lookahead.FetchesShape | src/main/java/io/storj/BucketIterator.java:20-24 | in the protocol's calls each item is fetched once, right after a successful advance, and released right after |
| Lookahead.DrainRoundBuffered | src/main/java/io/storj/BucketIterator.java:39-45 | one round from a buffered item that is not the last returns it and buffers the next |
| Lookahead.DrainRoundLast | src/main/java/io/storj/BucketIterator.java:46-54 | the round from the last buffered item returns it, or throws the cursor error instead |
| Lookahead.DrainedFromStep | src/main/java/io/storj/BucketIterator.java:39-45 | a round returning item `k` in front of a run with the shape from `k + 1` has the shape from `k` |
| Lookahead.DrainRoundShape | src/main/java/io/storj/BucketIterator.java:39-45 | the protocol's run from item `k` buffered has the shape from `k` when its run from `k + 1` has the shape from `k + 1` |
| Lookahead.DrainFromLast | src/main/java/io/storj/BucketIterator.java:46-54 | from the last item buffered, the run has the shape: the final check, and the item or the error |
| Lookahead.DrainFromBuffered | src/main/java/io/storj/BucketIterator.java:37-54 | from item `k` buffered, the protocol returns the remaining items in order with the calls that fetch them |
| Lookahead.DrainAfterFirstHasNext | src/main/java/io/storj/BucketIterator.java:17-24 | the first `hasNext()` on a non-empty listing fetches and buffers the first item |
| Lookahead.DrainEmpty | src/main/java/io/storj/BucketIterator.java:25-32 | over an empty listing the first `hasNext()` answers false, or throws the error |
| Lookahead.DrainProtocol | src/main/java/io/storj/BucketIterator.java:17-72 | `hasNext`-then-`next` returns the listing's items in order, each once, and fetches and releases each item exactly once; a cursor error is thrown and the last item is never returned |
| BucketIterator.BucketIterator.constructor | src/main/java/io/storj/BucketIterator.java:13-15 | a fresh lookahead state over a fresh cursor |
| BucketIterator.BucketIterator.HasNext | src/main/java/io/storj/BucketIterator.java:17-35 | fields, result and cursor calls are exactly those of `HasNextStep` |
| BucketIterator.BucketIterator.Next | src/main/java/io/storj/BucketIterator.java:37-72 | fields, result and cursor calls are exactly those of `NextStep` |
| BucketIterator.BucketIterator.Close | src/main/java/io/storj/BucketIterator.java:79-87 | asks for the cursor error, then releases the cursor even when that error is thrown |
| ObjectIterator.ObjectIterator.constructor | src/main/java/io/storj/ObjectIterator.java:12-14 | a fresh lookahead state over a fresh cursor |
| ObjectIterator.ObjectIterator.HasNext | src/main/java/io/storj/ObjectIterator.java:16-34 | fields, result and cursor calls are exactly those of `HasNextStep`, with each record converted to an `ObjectInfo` |
| ObjectIterator.ObjectIterator.Next | src/main/java/io/storj/ObjectIterator.java:36-71 | fields, result and cursor calls are exactly those of `NextStep`, with each record converted to an `ObjectInfo` |
| ObjectIterator.ObjectIterator.Close | src/main/java/io/storj/ObjectIterator.java:78-81 | releases the cursor without asking for its error |

## Left out

- Engine semantics are not modelled: what parse, share, override, upload and listing compute, the network, encryption and key derivation. Each reply is an unconstrained parameter.
- JNA `Memory`/`Pointer` copying and UTF-8 encoding and decoding are not modelled. Strings are `seq<char>`, and their byte lengths are not modelled. JNA's `Memory` refuses a zero-byte allocation, so an empty salt in `overrideEncryptionKey` fails in the Java code. The model passes it through.
- Java `char` is UTF-16, and `String.compareTo` and `String.hashCode` work on those units. The model applies them to Dafny characters.
- Null object arguments other than those modelled are not modelled:
  - a null permission, `SharePrefix` element, `EncryptionKey` or salt;
  - null map keys or values;
  - a null element of a varargs option array.

  The modelled nulls are a nullable access, an option string, a date, an array and a metadata map.
- The iteration order of `HashMap` in `setCustomMetadata` is left arbitrary: the model picks any remaining key.
- BucketInfo.java, BucketListOption.java and ObjectInputStream.java are not part of this model:
  - a bucket is kept as the engine's record;
  - bucket listing options are left out, so `listBuckets` takes none;
  - a download stream is only its handle.
- `moveObject` is not in Project.java and is not modelled.
- Permission.Builder.NotAfter, Permission.Builder.NotBefore, ObjectUploadOption.Internal and Uplink.Uplink.constructor take mutable Java objects as snapshots, at the time of the call:
  - the builder keeps the caller's `Date` and reads `getTime()` only in `build()`;
  - an `expires` option keeps its `Date` until `internal()` reads it;
  - `Uplink` keeps the caller's varargs array.

  In Java a later change to that `Date` or array is seen. The model, which holds values, does not capture that aliasing.
- The engine calls are named by what they do, not by their C names. The iterators and the upload stream call unprefixed names (`list_buckets`, `bucket_iterator_next`, `upload_write`, `free_write_result`, …). JNAUplink.java declares only the `uplink_`-prefixed names (JNAUplink.java:649-755). The model treats each unprefixed name as the same engine call as its prefixed counterpart; the mismatch between the two versions of the binding is not modelled.
- The `iterator()` methods of both iterators return the receiver and are not modelled. The `toString` methods are not modelled either.
- Concurrency is not modelled. The code has no locking, and each handle is used from one thread.
- The error structs returned by commit, abort, override, set-metadata, project close and the iterators' `*_iterator_err` calls (BucketIterator.java:26,47,63,82; ObjectIterator.java:25,46,62) are never released in the code. The trace records those calls as returning no result struct, so these leaks are stated by omission, not counted.
- Iterators: the cursor becomes unusable after the iterator is closed, but the model does not track this. `Close` records the release call and leaves the lookahead fields unchanged.
- Lookahead.Drain: the protocol run is bounded by a step count. `DrainProtocol` gives it one step more than the listing's length, which is enough for the whole run.
- Project.Project.ListBuckets: the call carries no options, because bucket listing options are not part of this model.
