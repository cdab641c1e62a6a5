/** Turning the engine's nullable error struct into a thrown exception. */
module ExceptionUtil {
  import opened Java
  import opened Native

  predicate IsDigit(c: char) { '0' <= c <= '9' }

  function DigitChar(d: nat): (c: char)
    requires d < 10
    ensures IsDigit(c) && c as int - '0' as int == d
  {
    ('0' as int + d) as char
  }

  /** Decimal digits of a natural number, most significant first, no leading zero. */
  function NatToDecimal(n: nat): (s: string)
    ensures |s| >= 1 && forall i :: 0 <= i < |s| ==> IsDigit(s[i])
    ensures |s| == 1 || s[0] != '0'
    ensures n > 0 ==> s[0] != '0'
  {
    if n < 10 then [DigitChar(n)] else NatToDecimal(n / 10) + [DigitChar(n % 10)]
  }

  /** A run of decimal digits without a leading zero (the single digit "0" allowed). */
  predicate CanonicalDigits(s: string)
  {
    |s| >= 1 && (forall i :: 0 <= i < |s| ==> IsDigit(s[i])) && (|s| == 1 || s[0] != '0')
  }

  /** The shape of Java's decimal rendering of an integer: canonical digits,
      optionally after a minus sign, and never "-0". */
  predicate Canonical(s: string)
  {
    CanonicalDigits(s) || (|s| >= 2 && s[0] == '-' && CanonicalDigits(s[1..]) && s[1..] != "0")
  }

  /** Java's rendering of an `int` in string concatenation (`"" + code`). */
  function DecimalString(n: int): (s: string)
    ensures |s| >= 1 && (s[0] == '-' <==> n < 0)
  {
    if n < 0 then "-" + NatToDecimal(-n) else NatToDecimal(n)
  }

  /** The rendering has the canonical shape: no leading zero, no "-0". */
  lemma DecimalStringCanonical(n: int)
    ensures Canonical(DecimalString(n))
  {
    if n < 0 {
      var d := NatToDecimal(-n);
      assert ("-" + d)[1..] == d;
    }
  }

  /** The value of a string of decimal digits: the reference reading of a rendering. */
  function ParseDigits(s: string): nat
    requires forall i :: 0 <= i < |s| ==> IsDigit(s[i])
  {
    if s == [] then 0
    else
      assert IsDigit(s[|s| - 1]);
      ParseDigits(s[..|s| - 1]) * 10 + (s[|s| - 1] as int - '0' as int)
  }

  function ParseDecimal(s: string): Option<int>
  {
    if |s| >= 2 && s[0] == '-' && forall i :: 1 <= i < |s| ==> IsDigit(s[i]) then
      var v: int := ParseDigits(s[1..]);
      Some(0 - v)
    else if |s| >= 1 && forall i :: 0 <= i < |s| ==> IsDigit(s[i]) then
      Some(ParseDigits(s))
    else
      None
  }

  lemma {:induction false} NatToDecimalRoundTrip(n: nat)
    ensures ParseDigits(NatToDecimal(n)) == n
  {
    if n >= 10 {
      var s := NatToDecimal(n);
      NatToDecimalRoundTrip(n / 10);
      assert s[..|s| - 1] == NatToDecimal(n / 10);
    }
  }

  /** The decimal rendering of a code can always be read back as that code. */
  lemma DecimalRoundTrip(n: int)
    ensures ParseDecimal(DecimalString(n)) == Some(n)
  {
    if n < 0 {
      var d := NatToDecimal(-n);
      var s := "-" + d;
      assert s[1..] == d;
      assert forall i :: 1 <= i < |s| ==> IsDigit(s[i]) by {
        forall i | 1 <= i < |s| ensures IsDigit(s[i]) { assert s[i] == d[i - 1]; }
      }
      NatToDecimalRoundTrip(-n);
      assert s[0] == '-' && |s| >= 2;
      assert ParseDecimal(s) == Some(0 - ParseDigits(d));
    } else {
      var s := NatToDecimal(n);
      assert IsDigit(s[0]) && s[0] != '-';
      NatToDecimalRoundTrip(n);
      assert ParseDecimal(s) == Some(ParseDigits(s));
    }
  }

  /** A canonical run of digits is the rendering of the number it denotes. */
  lemma {:induction false} CanonicalDigitsUnique(s: string)
    requires CanonicalDigits(s)
    ensures s == NatToDecimal(ParseDigits(s))
  {
    var n := ParseDigits(s);
    var last := s[|s| - 1];
    if |s| == 1 {
      assert IsDigit(s[0]);
      assert ParseDigits(s[..0]) == 0;
      assert DigitChar(n) as int == s[0] as int;
    } else {
      var init := s[..|s| - 1];
      assert CanonicalDigits(init) by {
        assert forall i :: 0 <= i < |init| ==> init[i] == s[i];
      }
      CanonicalDigitsUnique(init);
      var m := ParseDigits(init);
      assert IsDigit(last);
      var d := last as int - '0' as int;
      assert n == m * 10 + d;
      assert m > 0;
      assert n / 10 == m && n % 10 == d;
      assert DigitChar(d) as int == last as int;
      assert s == init + [last];
    }
  }

  /** Exactly one canonical string reads back as a given number: Java's
      rendering of it. */
  lemma CanonicalRenderingUnique(s: string, n: int)
    requires Canonical(s) && ParseDecimal(s) == Some(n)
    ensures s == DecimalString(n)
  {
    if CanonicalDigits(s) {
      assert s[0] != '-';
      CanonicalDigitsUnique(s);
    } else {
      var t := s[1..];
      assert forall i :: 1 <= i < |s| ==> IsDigit(s[i]) by {
        forall i | 1 <= i < |s| ensures IsDigit(s[i]) { assert s[i] == t[i - 1]; }
      }
      CanonicalDigitsUnique(t);
      assert ParseDigits(t) != 0;
      assert s == "-" + t;
    }
  }

  /** `handleError`: no exception for a null error; otherwise one
      `StorjException` whose message is the engine's message, or the decimal
      code when the engine gave no message. */
  function HandleError(error: Option<EngineError>): (thrown: Option<Exception>)
    ensures thrown.None? <==> error.None?
    ensures thrown.Some? ==> thrown.value.StorjException?
    ensures error.Some? && error.value.message.Some? ==>
      thrown == Some(StorjException(error.value.message.value))
  {
    match error
    case None => None
    case Some(e) =>
      var message := if e.message.Some? then e.message.value else DecimalString(e.code);
      Some(StorjException(message))
  }

  /** The exception `handleError` throws for a present error. */
  function Raise(e: EngineError): Exception
  {
    HandleError(Some(e)).value
  }

  /** When the engine gives no message, the code is recoverable from the
      exception's message, so no information about the error is lost. */
  lemma CodeRecoverableFromMessage(code: int)
    ensures HandleError(Some(EngineError(code, None))).Some?
    ensures var message := HandleError(Some(EngineError(code, None))).value.message;
      ParseDecimal(message) == Some(code) && Canonical(message) &&
      forall s :: Canonical(s) && ParseDecimal(s) == Some(code) ==> s == message
  {
    DecimalRoundTrip(code);
    DecimalStringCanonical(code);
    forall s | Canonical(s) && ParseDecimal(s) == Some(code)
      ensures s == DecimalString(code)
    {
      CanonicalRenderingUnique(s, code);
    }
  }

  /** The exception does not classify errors: two errors with the same
      message give the same exception whatever their codes. */
  lemma NoClassificationByCode(c1: int, c2: int, message: string)
    ensures HandleError(Some(EngineError(c1, Some(message)))) == HandleError(Some(EngineError(c2, Some(message))))
  {
  }
}
