/** Options for downloading an object and their fold into the engine's download-options struct. */
module ObjectDownloadOption {
  import opened Java
  import opened Native

  /** `offset(n)` and `length(n)`, each holding a `long`. */
  datatype ObjectDownloadOption = Offset(offset: int) | Length(length: int)

  datatype Key = OffsetKey | LengthKey

  function KeyOf(o: ObjectDownloadOption): Key
  {
    if o.Offset? then OffsetKey else LengthKey
  }

  function Get(d: DownloadOptions, k: Key): int
  {
    if k == OffsetKey then d.offset else d.length
  }

  function Written(o: ObjectDownloadOption): int
  {
    if o.Offset? then o.offset else o.length
  }

  /** A fresh struct: offset 0 and length 0. */
  const Defaults: DownloadOptions := DownloadOptions(0, 0)

  /** One iteration of the loop in `internal`: the option overwrites its own field and no other. */
  function Apply(d: DownloadOptions, o: ObjectDownloadOption): (e: DownloadOptions)
    ensures Get(e, KeyOf(o)) == Written(o)
    ensures forall k :: k != KeyOf(o) ==> Get(e, k) == Get(d, k)
  {
    match o
    case Offset(n) => d.(offset := n)
    case Length(n) => d.(length := n)
  }

  /** The struct after applying the options in order to a fresh one. */
  function Fold(options: seq<ObjectDownloadOption>): DownloadOptions
  {
    if options == [] then Defaults
    else Apply(Fold(options[..|options| - 1]), options[|options| - 1])
  }

  /** `internal`: null for no options, otherwise the fold of the options. */
  method Internal(options: seq<ObjectDownloadOption>) returns (r: Option<DownloadOptions>)
    ensures |options| == 0 <==> r.None?
    ensures |options| > 0 ==> r == Some(Fold(options))
  {
    if |options| == 0 {
      return None;
    }
    var downloadOptions := Defaults;
    for i := 0 to |options|
      invariant downloadOptions == Fold(options[..i])
    {
      assert options[..i + 1][..i] == options[..i];
      var option := options[i];
      if option.Offset? {
        downloadOptions := downloadOptions.(offset := option.offset);
      } else if option.Length? {
        downloadOptions := downloadOptions.(length := option.length);
      }
    }
    assert options[..|options|] == options;
    r := Some(downloadOptions);
  }

  /** For a repeated key the last occurrence wins; the value is copied as given. */
  lemma {:induction false} LastOccurrenceWins(options: seq<ObjectDownloadOption>, i: nat)
    requires i < |options|
    requires forall j :: i < j < |options| ==> KeyOf(options[j]) != KeyOf(options[i])
    ensures Get(Fold(options), KeyOf(options[i])) == Written(options[i])
  {
    if i < |options| - 1 {
      var init := options[..|options| - 1];
      assert init[i] == options[i];
      LastOccurrenceWins(init, i);
    }
  }

  /** A key no option mentions stays 0: with only offsets the length is 0,
      not a negative "until the end" value, and with only lengths the offset is 0. */
  lemma {:induction false} AbsentStaysZero(options: seq<ObjectDownloadOption>, k: Key)
    requires forall j :: 0 <= j < |options| ==> KeyOf(options[j]) != k
    ensures Get(Fold(options), k) == 0
  {
    if options != [] {
      AbsentStaysZero(options[..|options| - 1], k);
    }
  }
}
