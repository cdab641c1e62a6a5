/** Object system metadata on the Java side: dates in milliseconds, equality
    and ordering. */
module SystemMetadata {
  import opened Java
  import opened Native

  /** `created` and `expires` are `Date.getTime()` values (milliseconds). */
  datatype SystemMetadata = SystemMetadata(created: int, expires: int, contentLength: int)

  /** The constructor: the engine's seconds times 1000, in `long` arithmetic. */
  function FromNative(raw: RawSystemMetadata): (m: SystemMetadata)
    ensures IsLong(raw.created * 1000) ==> m.created == raw.created * 1000
    ensures IsLong(raw.expires * 1000) ==> m.expires == raw.expires * 1000
    ensures IsLong(m.created) && IsLong(m.expires)
    ensures m.contentLength == raw.contentLength
  {
    SystemMetadata(WrapLong(raw.created * 1000), WrapLong(raw.expires * 1000), raw.contentLength)
  }

  /** Reading a converted date back in seconds gives the engine's value. */
  lemma SecondsRoundTrip(raw: RawSystemMetadata)
    requires IsLong(raw.created * 1000) && IsLong(raw.expires * 1000)
    ensures MillisToSeconds(FromNative(raw).created) == raw.created
    ensures MillisToSeconds(FromNative(raw).expires) == raw.expires
  {
  }

  /** `equals`: content length and expiration only; the creation date is not compared. */
  predicate Equals(a: SystemMetadata, b: SystemMetadata): (r: bool)
    ensures r <==> a.(created := b.created) == b
  {
    a.contentLength == b.contentLength && a.expires == b.expires
  }

  /** `Date.compareTo` and `Long.compare`: -1, 0 or 1. */
  function CompareLong(x: int, y: int): (r: int)
    ensures r == 0 <==> x == y
    ensures r < 0 <==> x < y
    ensures -1 <= r <= 1
  {
    if x < y then -1 else if x == y then 0 else 1
  }

  /** `compareTo`: by expiration date, then by content length. */
  function Compare(a: SystemMetadata, b: SystemMetadata): (r: int)
    ensures r == 0 <==> Equals(a, b)
    ensures -1 <= r <= 1
  {
    var result := CompareLong(a.expires, b.expires);
    if result != 0 then result
    else CompareLong(a.contentLength, b.contentLength)
  }

  /** The order is lexicographic on (expires, contentLength). */
  lemma CompareIsLexicographic(a: SystemMetadata, b: SystemMetadata)
    ensures Compare(a, b) < 0 <==>
      a.expires < b.expires || (a.expires == b.expires && a.contentLength < b.contentLength)
  {
  }

  /** Neither equality nor order looks at the creation date. */
  lemma CreatedIgnored(a: SystemMetadata, b: SystemMetadata, created: int)
    ensures Equals(a.(created := created), b) == Equals(a, b)
    ensures Compare(a.(created := created), b) == Compare(a, b)
  {
  }

  lemma CompareAntisymmetric(a: SystemMetadata, b: SystemMetadata)
    ensures Compare(a, b) == -Compare(b, a)
  {
  }

  lemma CompareTransitive(a: SystemMetadata, b: SystemMetadata, c: SystemMetadata)
    requires Compare(a, b) <= 0 && Compare(b, c) <= 0
    ensures Compare(a, c) <= 0
  {
  }
}
