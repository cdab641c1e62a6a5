/** Options for listing objects and their fold into the engine's list-options struct. */
module ObjectListOption {
  import opened Java
  import opened Native

  /** An option as the factories build it. `cursor(s)` and `prefix(s)` keep
      the string, which may be null; `recursive()`, `system()` and `custom()`
      store `true`. */
  datatype ObjectListOption =
    | Cursor(cursor: Option<string>)
    | Prefix(prefix: Option<string>)
    | Recursive(recursive: bool)
    | System(system: bool)
    | Custom(custom: bool)

  function RecursiveOption(): ObjectListOption { Recursive(true) }
  function SystemOption(): ObjectListOption { System(true) }
  function CustomOption(): ObjectListOption { Custom(true) }

  /** Every option was built by a factory, so the flag options carry `true`. */
  predicate FromFactories(options: seq<ObjectListOption>)
  {
    forall o :: o in options ==> match o
      case Recursive(b) => b
      case System(b) => b
      case Custom(b) => b
      case _ => true
  }

  datatype Key = PrefixKey | CursorKey | RecursiveKey | SystemKey | CustomKey

  function KeyOf(o: ObjectListOption): Key
  {
    match o
    case Cursor(_) => CursorKey
    case Prefix(_) => PrefixKey
    case Recursive(_) => RecursiveKey
    case System(_) => SystemKey
    case Custom(_) => CustomKey
  }

  /** A field of the struct: a nullable string or a byte. */
  datatype Field = Text(text: Option<string>) | Byte(byte: JByte)

  function Get(s: ListObjectsOptions, k: Key): Field
  {
    match k
    case PrefixKey => Text(s.prefix)
    case CursorKey => Text(s.cursor)
    case RecursiveKey => Byte(s.recursive)
    case SystemKey => Byte(s.system)
    case CustomKey => Byte(s.custom)
  }

  /** Structs that agree on every field are equal. */
  lemma FieldsDetermine(s: ListObjectsOptions, t: ListObjectsOptions)
    requires forall k :: Get(s, k) == Get(t, k)
    ensures s == t
  {
    assert Get(s, PrefixKey) == Get(t, PrefixKey) && Get(s, CursorKey) == Get(t, CursorKey);
    assert Get(s, RecursiveKey) == Get(t, RecursiveKey) && Get(s, SystemKey) == Get(t, SystemKey);
    assert Get(s, CustomKey) == Get(t, CustomKey);
  }

  /** `option.value.toString()` on a null string throws. */
  predicate Throws(o: ObjectListOption)
  {
    (o.Cursor? && o.cursor.None?) || (o.Prefix? && o.prefix.None?)
  }

  predicate NoneThrows(options: seq<ObjectListOption>)
  {
    forall o :: o in options ==> !Throws(o)
  }

  /** The value an option writes into its field. */
  function Written(o: ObjectListOption): Field
  {
    match o
    case Cursor(c) => Text(c)
    case Prefix(p) => Text(p)
    case Recursive(b) => Byte(if b then 1 else 0)
    case System(b) => Byte(if b then 1 else 0)
    case Custom(b) => Byte(if b then 1 else 0)
  }

  /** A fresh struct: null strings and zero bytes. */
  const Defaults: ListObjectsOptions := ListObjectsOptions(None, None, 0, 0, 0)

  /** One iteration of the loop in `internal`: the option overwrites its own field and no other. */
  function Apply(s: ListObjectsOptions, o: ObjectListOption): (t: ListObjectsOptions)
    requires !Throws(o)
    ensures Get(t, KeyOf(o)) == Written(o)
    ensures forall k :: k != KeyOf(o) ==> Get(t, k) == Get(s, k)
  {
    match o
    case Cursor(c) => s.(cursor := c)
    case Prefix(p) => s.(prefix := p)
    case Recursive(b) => s.(recursive := if b then 1 else 0)
    case System(b) => s.(system := if b then 1 else 0)
    case Custom(b) => s.(custom := if b then 1 else 0)
  }

  /** The struct after applying the options in order to a fresh one. */
  function Fold(options: seq<ObjectListOption>): ListObjectsOptions
    requires NoneThrows(options)
  {
    if options == [] then Defaults
    else
      var init := options[..|options| - 1];
      assert forall o :: o in init ==> o in options;
      Apply(Fold(init), options[|options| - 1])
  }

  /** `internal`: null for no options, a null-pointer error when a string
      option holds null, otherwise the fold of the options. */
  method Internal(options: seq<ObjectListOption>) returns (r: Result<Option<ListObjectsOptions>>)
    ensures |options| == 0 ==> r == Ok(None)
    ensures |options| > 0 && !NoneThrows(options) ==> r == Err(NullPointerException)
    ensures |options| > 0 && NoneThrows(options) ==> r == Ok(Some(Fold(options)))
  {
    if |options| == 0 {
      return Ok(None);
    }
    var listOptions := Defaults;
    var i := 0;
    while i < |options|
      invariant 0 <= i <= |options|
      invariant NoneThrows(options[..i]) && listOptions == Fold(options[..i])
    {
      var option := options[i];
      assert option in options;
      assert options[..i + 1][..i] == options[..i];
      if option.Cursor? {
        if option.cursor.None? { return Err(NullPointerException); }
        listOptions := listOptions.(cursor := Some(option.cursor.value));
      } else if option.Prefix? {
        if option.prefix.None? { return Err(NullPointerException); }
        listOptions := listOptions.(prefix := Some(option.prefix.value));
      } else if option.Recursive? {
        listOptions := listOptions.(recursive := if option.recursive then 1 else 0);
      } else if option.System? {
        listOptions := listOptions.(system := if option.system then 1 else 0);
      } else if option.Custom? {
        listOptions := listOptions.(custom := if option.custom then 1 else 0);
      }
      i := i + 1;
    }
    assert options[..i] == options;
    r := Ok(Some(listOptions));
  }

  /** For a repeated key the last occurrence wins. */
  lemma {:induction false} LastOccurrenceWins(options: seq<ObjectListOption>, i: nat)
    requires NoneThrows(options) && i < |options|
    requires forall j :: i < j < |options| ==> KeyOf(options[j]) != KeyOf(options[i])
    ensures Get(Fold(options), KeyOf(options[i])) == Written(options[i])
  {
    var init := options[..|options| - 1];
    assert forall o :: o in init ==> o in options;
    if i < |options| - 1 {
      assert init[i] == options[i];
      LastOccurrenceWins(init, i);
    }
  }

  /** A key no option mentions keeps its default: a null string or a zero byte. */
  lemma {:induction false} AbsentKeepsDefault(options: seq<ObjectListOption>, k: Key)
    requires NoneThrows(options)
    requires forall j :: 0 <= j < |options| ==> KeyOf(options[j]) != k
    ensures Get(Fold(options), k) == Get(Defaults, k)
  {
    if options != [] {
      var init := options[..|options| - 1];
      assert forall o :: o in init ==> o in options;
      AbsentKeepsDefault(init, k);
    }
  }

  function IsFlagKey(k: Key): bool { k == RecursiveKey || k == SystemKey || k == CustomKey }

  /** With factory-built options each flag byte is 1 exactly when its option is present. */
  lemma {:induction false} FlagSetIffPresent(options: seq<ObjectListOption>, k: Key)
    requires NoneThrows(options) && FromFactories(options) && IsFlagKey(k)
    ensures Get(Fold(options), k) == Byte(if exists o :: o in options && KeyOf(o) == k then 1 else 0)
  {
    if options != [] {
      var init := options[..|options| - 1];
      var last := options[|options| - 1];
      assert options == init + [last];
      assert forall o :: o in init ==> o in options;
      FlagSetIffPresent(init, k);
      if KeyOf(last) == k {
        assert last in options;
      } else {
        forall o | o in options && KeyOf(o) == k ensures o in init {
        }
      }
    }
  }

  /** Two adjacent options with different keys can be swapped. */
  lemma {:induction false} DifferentKeysCommute(p: seq<ObjectListOption>, a: ObjectListOption, b: ObjectListOption, q: seq<ObjectListOption>)
    requires KeyOf(a) != KeyOf(b)
    requires NoneThrows(p + [a, b] + q)
    ensures NoneThrows(p + [b, a] + q)
    ensures Fold(p + [a, b] + q) == Fold(p + [b, a] + q)
  {
    var ab, ba := p + [a, b] + q, p + [b, a] + q;
    assert forall o :: o in ba ==> o in ab;
    if q == [] {
      assert ab[..|ab| - 1] == p + [a] && (p + [a])[..|p|] == p;
      assert ba[..|ba| - 1] == p + [b] && (p + [b])[..|p|] == p;
      assert forall o :: o in p ==> o in ab;
      var s := Fold(p);
      var t1, t2 := Apply(Apply(s, a), b), Apply(Apply(s, b), a);
      forall k ensures Get(t1, k) == Get(t2, k) {
      }
      FieldsDetermine(t1, t2);
    } else {
      var q' := q[..|q| - 1];
      assert ab[..|ab| - 1] == p + [a, b] + q';
      assert ba[..|ba| - 1] == p + [b, a] + q';
      assert forall o :: o in p + [a, b] + q' ==> o in ab;
      DifferentKeysCommute(p, a, b, q');
    }
  }
}
