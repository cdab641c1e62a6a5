/** Object metadata on the Java side: conversion from the engine's record,
    equality, hashing and ordering. */
module ObjectInfo {
  import opened Java
  import opened Native
  import SM = SystemMetadata

  datatype ObjectInfo = ObjectInfo(key: string, isPrefix: bool, system: SM.SystemMetadata, custom: map<string, string>)

  /** The keys that occur in a list of custom-metadata entries. */
  function EntryKeys(entries: seq<RawEntry>): set<string>
  {
    set i | 0 <= i < |entries| :: entries[i].key
  }

  /** The map obtained by `put`-ting the entries in order: a later entry
      overwrites an earlier one with the same key. */
  function CustomMap(entries: seq<RawEntry>): map<string, string>
  {
    if entries == [] then map[]
    else
      var last := entries[|entries| - 1];
      CustomMap(entries[..|entries| - 1])[last.key := last.value]
  }

  /** The map has exactly one key per distinct entry key. */
  lemma {:induction false} CustomMapKeys(entries: seq<RawEntry>)
    ensures CustomMap(entries).Keys == EntryKeys(entries)
  {
    if entries != [] {
      var init := entries[..|entries| - 1];
      CustomMapKeys(init);
      assert EntryKeys(entries) == EntryKeys(init) + {entries[|entries| - 1].key} by {
        forall k | k in EntryKeys(entries) ensures k in EntryKeys(init) + {entries[|entries| - 1].key} {
          var i :| 0 <= i < |entries| && entries[i].key == k;
          if i < |entries| - 1 { assert init[i] == entries[i]; }
        }
        forall k | k in EntryKeys(init) ensures k in EntryKeys(entries) {
          var i :| 0 <= i < |init| && init[i].key == k;
          assert entries[i] == init[i];
        }
      }
    }
  }

  /** For a repeated key, the value of its last entry wins. */
  lemma {:induction false} CustomMapLastWins(entries: seq<RawEntry>, i: nat)
    requires i < |entries|
    requires forall j :: i < j < |entries| ==> entries[j].key != entries[i].key
    ensures entries[i].key in CustomMap(entries)
    ensures CustomMap(entries)[entries[i].key] == entries[i].value
  {
    if i < |entries| - 1 {
      var init := entries[..|entries| - 1];
      assert init[i] == entries[i];
      CustomMapLastWins(init, i);
    }
  }

  /** The value the constructor builds from the engine's record. */
  function Convert(raw: RawObject): (info: ObjectInfo)
    ensures info.key == raw.key
    ensures info.isPrefix <==> raw.isPrefix == 1
    ensures info.system == SM.FromNative(raw.system)
    ensures info.custom.Keys == EntryKeys(raw.custom)
    ensures |raw.custom| == 0 ==> info.custom == map[]
  {
    CustomMapKeys(raw.custom);
    ObjectInfo(raw.key, raw.isPrefix == 1, SM.FromNative(raw.system),
               if |raw.custom| > 0 then CustomMap(raw.custom) else map[])
  }

  /** The constructor: copies the key, reads the prefix byte, converts the
      system metadata and `put`s every custom entry into a fresh map. */
  method New(raw: RawObject) returns (info: ObjectInfo)
    ensures info == Convert(raw)
  {
    var custom: map<string, string> := map[];
    if |raw.custom| > 0 {
      var entries := raw.custom;
      for i := 0 to |entries|
        invariant custom == CustomMap(entries[..i])
      {
        assert entries[..i + 1][..i] == entries[..i];
        custom := custom[entries[i].key := entries[i].value];
      }
      assert entries[..|entries|] == entries;
    }
    info := ObjectInfo(raw.key, raw.isPrefix == 1, SM.FromNative(raw.system), custom);
  }

  /** `equals`: key, prefix flag, system metadata (by its own `equals`) and custom map. */
  predicate Equals(a: ObjectInfo, b: ObjectInfo): (r: bool)
    ensures r <==> a.(system := a.system.(created := b.system.created)) == b
  {
    a.key == b.key && a.isPrefix == b.isPrefix && SM.Equals(a.system, b.system) && a.custom == b.custom
  }

  /** `String.hashCode`: h = 31 * h + c over the characters, in `int` arithmetic. */
  function StringHash(s: string): (h: int)
    ensures IsInt(h)
  {
    if s == [] then 0 else WrapInt(31 * StringHash(s[..|s| - 1]) + s[|s| - 1] as int)
  }

  /** `hashCode` = `Objects.hash(key)` = 31 + the key's hash, in `int` arithmetic. */
  function Hash(info: ObjectInfo): (h: int)
    ensures IsInt(h)
  {
    WrapInt(31 + StringHash(info.key))
  }

  /** The hash depends on the key alone, so equal infos hash alike. */
  lemma HashConsistentWithEquals(a: ObjectInfo, b: ObjectInfo)
    ensures a.key == b.key ==> Hash(a) == Hash(b)
    ensures Equals(a, b) ==> Hash(a) == Hash(b)
  {
  }

  /** `Boolean.compare`: false sorts before true. */
  function BoolCompare(x: bool, y: bool): int
  {
    if x == y then 0 else if x then 1 else -1
  }

  /** `String.compareTo`: the difference of the first differing characters,
      else the difference of the lengths. */
  function StringCompare(a: string, b: string): (r: int)
    ensures r == 0 <==> a == b
  {
    if |a| == 0 || |b| == 0 then |a| - |b|
    else if a[0] != b[0] then a[0] as int - b[0] as int
    else
      var r := StringCompare(a[1..], b[1..]);
      assert a == [a[0]] + a[1..] && b == [b[0]] + b[1..];
      r
  }

  lemma {:induction false} StringCompareAntisymmetric(a: string, b: string)
    ensures StringCompare(a, b) == -StringCompare(b, a)
  {
    if |a| > 0 && |b| > 0 && a[0] == b[0] {
      StringCompareAntisymmetric(a[1..], b[1..]);
    }
  }

  /** `compareTo`: prefix flag, then key, then system metadata; if all of
      those tie but the custom maps differ, -1. */
  function Compare(a: ObjectInfo, b: ObjectInfo): (r: int)
    ensures a.isPrefix != b.isPrefix ==> (r < 0 <==> b.isPrefix)
    ensures r == 0 ==> a.key == b.key
  {
    var result := BoolCompare(a.isPrefix, b.isPrefix);
    if result != 0 then result
    else
      var keyResult := StringCompare(a.key, b.key);
      if keyResult != 0 then keyResult
      else
        var systemResult := SM.Compare(a.system, b.system);
        if systemResult != 0 then systemResult
        else if a.custom != b.custom then -1
        else 0
  }

  /** `compareTo` returns 0 exactly when `equals` holds. */
  lemma CompareZeroIffEquals(a: ObjectInfo, b: ObjectInfo)
    ensures Compare(a, b) == 0 <==> Equals(a, b)
  {
  }

  /** Objects sort before prefixes, whatever their keys. */
  lemma ObjectsBeforePrefixes(a: ObjectInfo, b: ObjectInfo)
    requires !a.isPrefix && b.isPrefix
    ensures Compare(a, b) < 0 && Compare(b, a) > 0
  {
  }

  /** With equal prefix flags the key decides; with equal keys too, the system metadata. */
  lemma KeyThenSystemMetadata(a: ObjectInfo, b: ObjectInfo)
    requires a.isPrefix == b.isPrefix
    ensures a.key != b.key ==> Compare(a, b) == StringCompare(a.key, b.key)
    ensures a.key == b.key && !SM.Equals(a.system, b.system) ==> Compare(a, b) == SM.Compare(a.system, b.system)
  {
  }

  /** A key sorts before every longer key it is a prefix of: `compareTo`
      answers minus the length of the extra part. */
  lemma {:induction false} StringCompareProperPrefix(a: string, rest: string)
    ensures StringCompare(a, a + rest) == -|rest|
  {
    if |a| > 0 {
      assert (a + rest)[0] == a[0] && (a + rest)[1..] == a[1..] + rest;
      StringCompareProperPrefix(a[1..], rest);
    }
  }

  /** Between two objects (or two prefixes), one whose key is a proper
      prefix of the other's sorts first, whatever their metadata. */
  lemma PrefixKeySortsFirst(a: ObjectInfo, b: ObjectInfo, rest: string)
    requires a.isPrefix == b.isPrefix && b.key == a.key + rest && |rest| > 0
    ensures Compare(a, b) < 0 && Compare(b, a) > 0
  {
    StringCompareProperPrefix(a.key, rest);
    StringCompareAntisymmetric(a.key, b.key);
  }

  /** The order is antisymmetric except when only the custom maps differ. */
  lemma {:induction false} CompareAntisymmetricUnlessOnlyCustomDiffers(a: ObjectInfo, b: ObjectInfo)
    requires !(a.isPrefix == b.isPrefix && a.key == b.key && SM.Equals(a.system, b.system) && a.custom != b.custom)
    ensures Compare(a, b) == -Compare(b, a)
  {
    StringCompareAntisymmetric(a.key, b.key);
    SM.CompareAntisymmetric(a.system, b.system);
  }

  /** When only the custom maps differ, each compares below the other: the
      order is not antisymmetric there. */
  lemma OnlyCustomDiffersBothLess(a: ObjectInfo, b: ObjectInfo)
    requires a.isPrefix == b.isPrefix && a.key == b.key && SM.Equals(a.system, b.system)
    requires a.custom != b.custom
    ensures Compare(a, b) == -1 && Compare(b, a) == -1
  {
  }
}
