/**
 * Shared vocabulary of the model: Java's nullable values, 64-bit ids,
 * the exceptions the services raise, ASCII case folding, and the
 * decimal rendering of ids inside error messages.
 */
module Common {

  const MinLong: int := -0x8000_0000_0000_0000
  const MaxLong: int := 0x7FFF_FFFF_FFFF_FFFF

  /** A Java `Long` that is not null. */
  type Long = x: int | MinLong <= x <= MaxLong

  /** A Java reference that may be null. */
  datatype Option<+T> = None | Some(value: T)

  /** The exceptions raised by the modelled code. */
  datatype Error =
    | IllegalArgument(message: string)   // java.lang.IllegalArgumentException
    | NotFound(message: string)          // exception.ResourceNotFoundException
    | ServiceNotFound(message: string)   // the class nested in AppointmentService
    | NonUniqueResult                    // a single-result query matched several rows
    | AccessDenied                       // a @PreAuthorize expression evaluated to false
    | NullPointer                        // java.lang.NullPointerException

  /** A call that either returns a value or throws. */
  datatype Result<+T> = Ok(value: T) | Err(error: Error)

  /** A call that returns nothing or throws. */
  datatype Outcome = Pass | Fail(error: Error)

  /** `orElseThrow` with an `IllegalArgumentException`: an absent value becomes that error. */
  function Present<T>(r: Result<Option<T>>, message: string): (v: Result<T>)
    ensures r.Ok? && r.value.Some? <==> v.Ok?
    ensures v.Ok? ==> v.value == r.value.value
    ensures r.Ok? && r.value.None? ==> v == Err(IllegalArgument(message))
    ensures r.Err? ==> v == Err(r.error)
  {
    match r
    case Err(e) => Err(e)
    case Ok(None) => Err(IllegalArgument(message))
    case Ok(Some(x)) => Ok(x)
  }

  /** The partial-update rule of the services: a non-null patch field wins. */
  function Overlay<T>(patch: Option<T>, current: Option<T>): (r: Option<T>)
    ensures patch.Some? ==> r == patch
    ensures patch.None? ==> r == current
  {
    if patch.Some? then patch else current
  }

  // ---------------------------------------------------------------------
  // Strings

  function UpperChar(c: char): char
  {
    if 'a' <= c <= 'z' then (c as int - 32) as char else c
  }

  /** `String.toUpperCase()` restricted to ASCII letters. */
  function Upper(s: string): (r: string)
    ensures |r| == |s|
    ensures forall i :: 0 <= i < |s| ==> r[i] == UpperChar(s[i])
  {
    if s == [] then [] else [UpperChar(s[0])] + Upper(s[1..])
  }

  /** Equality after ASCII upper-casing, as in a JPQL `upper(x) = upper(y)` test. */
  predicate EqualsIgnoreCase(a: string, b: string)
  {
    Upper(a) == Upper(b)
  }

  /** `s.trim().isEmpty()`: `trim` drops every character at or below U+0020. */
  predicate IsBlank(s: string)
  {
    forall i :: 0 <= i < |s| ==> s[i] <= ' '
  }

  // ---------------------------------------------------------------------
  // Decimal rendering of ids (`"..." + id` on a Long)

  predicate IsDigit(c: char)
  {
    '0' <= c <= '9'
  }

  function DigitChar(d: int): (c: char)
    requires 0 <= d < 10
    ensures IsDigit(c) && c as int - '0' as int == d
  {
    ('0' as int + d) as char
  }

  function NatToString(n: nat): string
  {
    if n < 10 then [DigitChar(n)] else NatToString(n / 10) + [DigitChar(n % 10)]
  }

  /** `Long.toString`. */
  function LongToString(n: int): string
  {
    if n < 0 then "-" + NatToString(-n) else NatToString(n)
  }

  /** The value of a string of decimal digits, read from the left. */
  function DigitsValue(s: string): int
  {
    if s == [] then 0
    else DigitsValue(s[..|s| - 1]) * 10 + (s[|s| - 1] as int - '0' as int)
  }

  /** `Long.parseLong` on the strings `LongToString` produces. */
  function ParseLong(s: string): int
  {
    if |s| > 0 && s[0] == '-' then -DigitsValue(s[1..]) else DigitsValue(s)
  }

  lemma {:induction false} NatToStringDigits(n: nat)
    ensures |NatToString(n)| > 0
    ensures forall i :: 0 <= i < |NatToString(n)| ==> IsDigit(NatToString(n)[i])
    ensures DigitsValue(NatToString(n)) == n
  {
    if n >= 10 {
      NatToStringDigits(n / 10);
      var prefix := NatToString(n / 10);
      var s := prefix + [DigitChar(n % 10)];
      assert s[..|s| - 1] == prefix;
    }
  }

  /** Parsing undoes the rendering. */
  lemma LongToStringRoundTrip(n: int)
    ensures ParseLong(LongToString(n)) == n
  {
    if n < 0 {
      NatToStringDigits(-n);
      assert LongToString(n)[1..] == NatToString(-n);
    } else {
      NatToStringDigits(n);
    }
  }

  /** Two ids render to the same text only if they are the same id. */
  lemma LongToStringInjective(a: int, b: int)
    requires LongToString(a) == LongToString(b)
    ensures a == b
  {
    LongToStringRoundTrip(a);
    LongToStringRoundTrip(b);
  }

  /** The message format of `ResourceNotFoundException(type, id)`. */
  function NotFoundMessage(kind: string, id: int): (m: string)
    ensures |kind| + 20 < |m| && m[..|kind|] == kind
    ensures |kind| + 20 < |m| && ParseLong(m[|kind| + 20..]) == id
  {
    LongToStringRoundTrip(id);
    NatToStringDigits(if id < 0 then -id else id);
    assert (kind + " not found with ID: " + LongToString(id))[|kind| + 20..] == LongToString(id);
    kind + " not found with ID: " + LongToString(id)
  }

  /** A not-found message names exactly one id. */
  lemma NotFoundMessageInjective(kind: string, a: int, b: int)
    requires NotFoundMessage(kind, a) == NotFoundMessage(kind, b)
    ensures a == b
  {
    var prefix := kind + " not found with ID: ";
    assert NotFoundMessage(kind, a)[|prefix|..] == LongToString(a);
    assert NotFoundMessage(kind, b)[|prefix|..] == LongToString(b);
    LongToStringInjective(a, b);
  }
}
