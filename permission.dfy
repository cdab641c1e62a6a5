/** Permissions for sharing an access grant: a mutable builder and its
    encoding into the engine's permission struct. */
module Permission {
  import opened Java
  import opened Native

  datatype Capability = Download | Upload | List | Delete

  /** The builder's fields; the bounds are `Date.getTime()` values, or null when unset. */
  datatype Settings = Settings(
    allowDownload: bool, allowUpload: bool, allowList: bool, allowDelete: bool,
    notAfter: Option<int>, notBefore: Option<int>)

  /** A fresh builder: nothing allowed, no bounds. */
  const Unset: Settings := Settings(false, false, false, false, None, None)

  function Allowed(s: Settings, c: Capability): bool
  {
    match c
    case Download => s.allowDownload
    case Upload => s.allowUpload
    case List => s.allowList
    case Delete => s.allowDelete
  }

  /** What `allowDownload()` and its siblings do to the builder's fields. */
  function Allow(s: Settings, c: Capability): (t: Settings)
    ensures Allowed(t, c)
    ensures forall d :: d != c ==> Allowed(t, d) == Allowed(s, d)
    ensures t.notAfter == s.notAfter && t.notBefore == s.notBefore
  {
    match c
    case Download => s.(allowDownload := true)
    case Upload => s.(allowUpload := true)
    case List => s.(allowList := true)
    case Delete => s.(allowDelete := true)
  }

  /** The value `Permission.internal()` hands to the engine. */
  datatype Permission = Permission(cPermission: CPermission)

  function FlagByte(b: bool): JByte { if b then 1 else 0 }

  /** A bound as the engine reads it: seconds, truncated toward zero; 0 when unset. */
  function EncodeBound(bound: Option<int>): int
  {
    if bound.Some? then MillisToSeconds(bound.value) else 0
  }

  /** The `Permission(Builder)` constructor: a byte per capability, and each
      bound in whole seconds, 0 when unset. */
  function Encode(s: Settings): (p: CPermission)
    ensures forall c :: CapabilityByte(p, c) == FlagByte(Allowed(s, c))
    ensures s.notAfter.None? ==> p.notAfter == 0
    ensures s.notBefore.None? ==> p.notBefore == 0
    ensures s.notAfter.Some? ==> p.notAfter == MillisToSeconds(s.notAfter.value)
    ensures s.notBefore.Some? ==> p.notBefore == MillisToSeconds(s.notBefore.value)
  {
    CPermission(FlagByte(s.allowDownload), FlagByte(s.allowUpload), FlagByte(s.allowList),
                FlagByte(s.allowDelete), EncodeBound(s.notBefore), EncodeBound(s.notAfter))
  }

  /** The byte of the engine struct that carries a capability. */
  function CapabilityByte(p: CPermission, c: Capability): JByte
  {
    match c
    case Download => p.allowDownload
    case Upload => p.allowUpload
    case List => p.allowList
    case Delete => p.allowDelete
  }

  /** Each capability byte is 1 exactly when the builder allowed it, else 0,
      so the four flags can be read back from the struct. */
  lemma FlagsRoundTrip(s: Settings, c: Capability)
    ensures CapabilityByte(Encode(s), c) == 1 <==> Allowed(s, c)
    ensures CapabilityByte(Encode(s), c) == 0 <==> !Allowed(s, c)
  {
  }

  /** A set bound becomes whole seconds, truncated toward zero: `notAfter`
      and `notBefore` alike. */
  lemma BoundTruncatedToSeconds(s: Settings)
    ensures s.notAfter.Some? ==> var ms, sec := s.notAfter.value, Encode(s).notAfter;
      if ms >= 0 then sec * 1000 <= ms < sec * 1000 + 1000 else sec * 1000 - 1000 < ms <= sec * 1000
    ensures s.notBefore.Some? ==> var ms, sec := s.notBefore.value, Encode(s).notBefore;
      if ms >= 0 then sec * 1000 <= ms < sec * 1000 + 1000 else sec * 1000 - 1000 < ms <= sec * 1000
  {
  }

  /** An unset bound and a bound within one second of the epoch give the same struct. */
  lemma UnsetLooksLikeEpoch(s: Settings, ms: int)
    requires -1000 < ms < 1000
    ensures Encode(s.(notAfter := None)) == Encode(s.(notAfter := Some(ms)))
    ensures Encode(s.(notBefore := None)) == Encode(s.(notBefore := Some(ms)))
  {
  }

  /** No check that the window is well ordered: an inverted window stays inverted. */
  lemma InvertedWindowPassesThrough(s: Settings)
    requires s.notBefore.Some? && s.notAfter.Some?
    requires 0 <= s.notAfter.value < s.notBefore.value
    ensures Encode(s).notAfter <= Encode(s).notBefore
  {
    var a, b := s.notAfter.value, s.notBefore.value;
    assert MillisToSeconds(a) == a / 1000 && MillisToSeconds(b) == b / 1000;
  }

  /** Allowing a capability twice is the same as allowing it once. */
  lemma AllowIdempotent(s: Settings, c: Capability)
    ensures Allow(Allow(s, c), c) == Allow(s, c)
  {
  }

  /** Allowing two capabilities does not depend on the order. */
  lemma AllowCommutes(s: Settings, c: Capability, d: Capability)
    ensures Allow(Allow(s, c), d) == Allow(Allow(s, d), c)
  {
  }

  /** `Permission.Builder`: each setter updates one field and returns the builder. */
  class Builder {
    var allowDownload: bool
    var allowUpload: bool
    var allowList: bool
    var allowDelete: bool
    var notAfter: Option<int>
    var notBefore: Option<int>

    function Fields(): Settings
      reads this
    {
      Settings(allowDownload, allowUpload, allowList, allowDelete, notAfter, notBefore)
    }

    constructor ()
      ensures Fields() == Unset
    {
      allowDownload, allowUpload, allowList, allowDelete := false, false, false, false;
      notAfter, notBefore := None, None;
    }

    method AllowDownload() returns (self: Builder)
      modifies this
      ensures self == this && Fields() == Allow(old(Fields()), Download)
    {
      allowDownload := true;
      self := this;
    }

    method AllowUpload() returns (self: Builder)
      modifies this
      ensures self == this && Fields() == Allow(old(Fields()), Upload)
    {
      allowUpload := true;
      self := this;
    }

    method AllowList() returns (self: Builder)
      modifies this
      ensures self == this && Fields() == Allow(old(Fields()), List)
    {
      allowList := true;
      self := this;
    }

    method AllowDelete() returns (self: Builder)
      modifies this
      ensures self == this && Fields() == Allow(old(Fields()), Delete)
    {
      allowDelete := true;
      self := this;
    }

    /** The last call wins; null makes the bound unset again. */
    method NotAfter(date: Option<int>) returns (self: Builder)
      modifies this
      ensures self == this && Fields() == old(Fields()).(notAfter := date)
      ensures date.None? ==> Encode(Fields()).notAfter == 0
    {
      notAfter := date;
      self := this;
    }

    /** The last call wins; null makes the bound unset again. */
    method NotBefore(date: Option<int>) returns (self: Builder)
      modifies this
      ensures self == this && Fields() == old(Fields()).(notBefore := date)
      ensures date.None? ==> Encode(Fields()).notBefore == 0
    {
      notBefore := date;
      self := this;
    }

    /** `build()`: the encoded permission; the builder is left as it was. */
    method Build() returns (p: Permission)
      ensures p.cPermission == Encode(Fields())
      ensures forall c :: CapabilityByte(p.cPermission, c) == 1 <==> Allowed(Fields(), c)
    {
      p := Permission(CPermission(
        if allowDownload then 1 else 0, if allowUpload then 1 else 0,
        if allowList then 1 else 0, if allowDelete then 1 else 0,
        0, 0));
      if notAfter != None {
        p := Permission(p.cPermission.(notAfter := MillisToSeconds(notAfter.value)));
      }
      if notBefore != None {
        p := Permission(p.cPermission.(notBefore := MillisToSeconds(notBefore.value)));
      }
    }
  }
}
