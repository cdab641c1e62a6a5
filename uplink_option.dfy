/** Options for configuring the engine and their fold into its config struct. */
module UplinkOption {
  import opened Java
  import opened Native

  /** An option as the factories build it: `tempDir(s)` and `userAgent(s)`
      keep the string, which may be null; `dialTimeout(ms)` keeps the `int`. */
  datatype UplinkOption =
    | TempDir(tempDir: Option<string>)
    | UserAgent(userAgent: Option<string>)
    | DialTimeout(dialTimeout: int)

  datatype Key = TempDirKey | UserAgentKey | DialTimeoutKey

  function KeyOf(o: UplinkOption): Key
  {
    match o
    case TempDir(_) => TempDirKey
    case UserAgent(_) => UserAgentKey
    case DialTimeout(_) => DialTimeoutKey
  }

  /** A field of the config struct: a nullable string or a number. */
  datatype Field = Text(text: Option<string>) | Number(number: int)

  function Get(c: Config, k: Key): Field
  {
    match k
    case TempDirKey => Text(c.tempDirectory)
    case UserAgentKey => Text(c.userAgent)
    case DialTimeoutKey => Number(c.dialTimeoutMilliseconds)
  }

  /** `option.value.toString()` on a null string throws. */
  predicate Throws(o: UplinkOption)
  {
    (o.TempDir? && o.tempDir.None?) || (o.UserAgent? && o.userAgent.None?)
  }

  predicate NoneThrows(options: seq<UplinkOption>)
  {
    forall o :: o in options ==> !Throws(o)
  }

  function Written(o: UplinkOption): Field
  {
    match o
    case TempDir(d) => Text(d)
    case UserAgent(a) => Text(a)
    case DialTimeout(ms) => Number(ms)
  }

  /** A fresh config: null strings and a zero timeout, each meaning "engine default". */
  const Defaults: Config := Config(None, 0, None)

  /** One iteration of the loop in `internal`: the option overwrites its own field and no other. */
  function Apply(c: Config, o: UplinkOption): (d: Config)
    requires !Throws(o)
    ensures Get(d, KeyOf(o)) == Written(o)
    ensures forall k :: k != KeyOf(o) ==> Get(d, k) == Get(c, k)
  {
    match o
    case TempDir(dir) => c.(tempDirectory := dir)
    case UserAgent(agent) => c.(userAgent := agent)
    case DialTimeout(ms) => c.(dialTimeoutMilliseconds := ms)
  }

  /** The config after applying the options in order to a fresh one. */
  function Fold(options: seq<UplinkOption>): Config
    requires NoneThrows(options)
  {
    if options == [] then Defaults
    else
      var init := options[..|options| - 1];
      assert forall o :: o in init ==> o in options;
      Apply(Fold(init), options[|options| - 1])
  }

  /** `internal`: always a config, even for no options, unless a string
      option holds null, which throws. */
  method Internal(options: seq<UplinkOption>) returns (r: Result<Config>)
    ensures |options| == 0 ==> r == Ok(Defaults)
    ensures !NoneThrows(options) ==> r == Err(NullPointerException)
    ensures NoneThrows(options) ==> r == Ok(Fold(options))
  {
    var config := Defaults;
    for i := 0 to |options|
      invariant NoneThrows(options[..i]) && config == Fold(options[..i])
    {
      var option := options[i];
      assert option in options;
      assert options[..i + 1][..i] == options[..i];
      if option.TempDir? {
        if option.tempDir.None? { return Err(NullPointerException); }
        config := config.(tempDirectory := Some(option.tempDir.value));
      } else if option.UserAgent? {
        if option.userAgent.None? { return Err(NullPointerException); }
        config := config.(userAgent := Some(option.userAgent.value));
      } else if option.DialTimeout? {
        config := config.(dialTimeoutMilliseconds := option.dialTimeout);
      }
    }
    assert options[..|options|] == options;
    r := Ok(config);
  }

  /** For a repeated key the last occurrence wins; the strings and the timeout are copied as given. */
  lemma {:induction false} LastOccurrenceWins(options: seq<UplinkOption>, i: nat)
    requires NoneThrows(options) && i < |options|
    requires forall j :: i < j < |options| ==> KeyOf(options[j]) != KeyOf(options[i])
    ensures Get(Fold(options), KeyOf(options[i])) == Written(options[i])
  {
    var init := options[..|options| - 1];
    assert forall o :: o in init ==> o in options;
    if i < |options| - 1 {
      assert init[i] == options[i];
      LastOccurrenceWins(init, i);
    }
  }

  /** A key no option mentions keeps its default: null, or a zero timeout. */
  lemma {:induction false} AbsentKeepsDefault(options: seq<UplinkOption>, k: Key)
    requires NoneThrows(options)
    requires forall j :: 0 <= j < |options| ==> KeyOf(options[j]) != k
    ensures Get(Fold(options), k) == Get(Defaults, k)
  {
    if options != [] {
      var init := options[..|options| - 1];
      assert forall o :: o in init ==> o in options;
      AbsentKeepsDefault(init, k);
    }
  }
}
