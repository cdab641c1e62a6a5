/** Options for uploading an object and their fold into the engine's upload-options struct. */
module ObjectUploadOption {
  import opened Java
  import opened Native

  /** `expires(date)`: the date's `getTime()` in milliseconds, or null. */
  datatype ObjectUploadOption = Expires(expires: Option<int>)

  /** `((Date) value).getTime()` on a null date throws. */
  predicate NoneThrows(options: seq<ObjectUploadOption>)
  {
    forall o :: o in options ==> o.expires.Some?
  }

  /** A fresh struct: `expires` 0, the engine's "no expiration". */
  const Defaults: UploadOptions := UploadOptions(0)

  /** The struct after applying the options in order to a fresh one. */
  function Fold(options: seq<ObjectUploadOption>): UploadOptions
    requires NoneThrows(options)
  {
    if options == [] then Defaults
    else
      var init := options[..|options| - 1];
      assert forall o :: o in init ==> o in options;
      Fold(init).(expires := MillisToSeconds(options[|options| - 1].expires.value))
  }

  /** `internal`: null for no options, a null-pointer error for a null date,
      otherwise the fold of the options. */
  method Internal(options: seq<ObjectUploadOption>) returns (r: Result<Option<UploadOptions>>)
    ensures |options| == 0 ==> r == Ok(None)
    ensures |options| > 0 && !NoneThrows(options) ==> r == Err(NullPointerException)
    ensures |options| > 0 && NoneThrows(options) ==> r == Ok(Some(Fold(options)))
  {
    if |options| == 0 {
      return Ok(None);
    }
    var uploadOptions := Defaults;
    for i := 0 to |options|
      invariant NoneThrows(options[..i]) && uploadOptions == Fold(options[..i])
    {
      var option := options[i];
      assert option in options;
      assert options[..i + 1][..i] == options[..i];
      if option.expires.None? {
        return Err(NullPointerException);
      }
      uploadOptions := uploadOptions.(expires := MillisToSeconds(option.expires.value));
    }
    assert options[..|options|] == options;
    r := Ok(Some(uploadOptions));
  }

  /** The last `expires` wins, as its milliseconds divided by 1000, truncated toward zero. */
  lemma LastOccurrenceWins(options: seq<ObjectUploadOption>)
    requires NoneThrows(options) && |options| > 0
    ensures var ms, sec := options[|options| - 1].expires.value, Fold(options).expires;
      sec == MillisToSeconds(ms) &&
      if ms >= 0 then sec * 1000 <= ms < sec * 1000 + 1000 else sec * 1000 - 1000 < ms <= sec * 1000
  {
  }
}
