/**
 * The few behaviours of the Java platform and of commons-lang 2 that the
 * client relies on: `StringUtils.isNumeric`, `Integer.parseInt` and
 * `Long.parseLong`, `Number.toString`, `Number.intValue`,
 * `String.compareToIgnoreCase`, `String.getBytes` / `new String(byte[])`,
 * and the kinds of field values the mapper handles.
 */
module JavaLang {
  import opened Errors

  newtype byte = x: int | 0 <= x < 256

  const INT_MIN: int := -0x8000_0000
  const INT_MAX: int := 0x7fff_ffff
  const LONG_MIN: int := -0x8000_0000_0000_0000
  const LONG_MAX: int := 0x7fff_ffff_ffff_ffff

  /** A field value as reflection hands it to the client. */
  datatype Value =
    | Str(s: string)          // java.lang.String
    | Bytes(b: seq<byte>)     // byte[]
    | Int(n: int)             // java.lang.Integer
    | Long(n: int)            // java.lang.Long
    | Num(intValue: int, text: string)  // any other java.lang.Number: what its intValue() and toString() return
    | Other                   // any other object
    | Null                    // null

  /** `instanceof Number`. */
  predicate IsNumber(v: Value) { v.Int? || v.Long? || v.Num? }

  // ---------------------------------------------------------------------
  // Digits and StringUtils.isNumeric

  predicate IsDigit(c: char) { '0' <= c <= '9' }

  function DigitValue(c: char): (d: nat)
    requires IsDigit(c)
    ensures d < 10
  {
    (c as int) - ('0' as int)
  }

  function DigitChar(d: nat): (c: char)
    requires d < 10
    ensures IsDigit(c) && DigitValue(c) == d
  {
    (('0' as int) + d) as char
  }

  /** commons-lang 2 `StringUtils.isNumeric`: every character a digit, so "" is numeric. */
  predicate IsNumeric(s: string): (b: bool)
    ensures s == [] ==> b
    ensures b <==> forall c | c in s :: IsDigit(c)
  {
    forall i | 0 <= i < |s| :: IsDigit(s[i])
  }

  /** The value of a string of digits, most significant first. */
  function DigitsValue(s: string): nat
    requires IsNumeric(s)
  {
    if s == [] then 0 else 10 * DigitsValue(s[..|s| - 1]) + DigitValue(s[|s| - 1])
  }

  // ---------------------------------------------------------------------
  // Integer.parseInt and Long.parseLong

  /**
   * Parsing of a decimal literal with an optional sign into [lo, hi]; `None`
   * is the NumberFormatException (empty text, a lone sign, a non-digit, or a
   * value out of range).
   */
  function ParseSigned(s: string, lo: int, hi: int): (r: Option<int>)
    ensures r.Some? ==> lo <= r.value <= hi
    ensures r.Some? ==> s != [] && s != "-" && s != "+"
  {
    var signed := |s| > 0 && (s[0] == '-' || s[0] == '+');
    var digits := if signed then s[1..] else s;
    if digits == [] || !IsNumeric(digits) then None
    else
      var n: int := if s[0] == '-' then 0 - (DigitsValue(digits) as int) else DigitsValue(digits);
      if lo <= n <= hi then Some(n) else None
  }

  function ParseInt(s: string): (r: Option<int>)
    ensures r.Some? ==> INT_MIN <= r.value <= INT_MAX
  {
    ParseSigned(s, INT_MIN, INT_MAX)
  }

  function ParseLong(s: string): (r: Option<int>)
    ensures r.Some? ==> LONG_MIN <= r.value <= LONG_MAX
  {
    ParseSigned(s, LONG_MIN, LONG_MAX)
  }

  /** Digit-only text is parsed as its digits' value when that value fits. */
  lemma {:induction false} ParseNumeric(s: string, lo: int, hi: int)
    requires IsNumeric(s) && s != []
    ensures ParseSigned(s, lo, hi) == if lo <= DigitsValue(s) <= hi then Some(DigitsValue(s)) else None
  {
    assert IsDigit(s[0]);
  }

  // ---------------------------------------------------------------------
  // Integer.toString and Long.toString

  function NaturalToString(n: nat): (s: string)
    ensures s != [] && IsNumeric(s)
  {
    if n < 10 then [DigitChar(n)] else NaturalToString(n / 10) + [DigitChar(n % 10)]
  }

  /** Decimal text: a minus sign exactly for a negative number, then digits only. */
  function IntToString(n: int): (s: string)
    ensures s != [] && (s[0] == '-' <==> n < 0)
    ensures IsNumeric(if n < 0 then s[1..] else s)
  {
    if n < 0 then
      var t := "-" + NaturalToString(-n);
      assert t[1..] == NaturalToString(-n);
      t
    else
      var t := NaturalToString(n);
      assert IsDigit(t[0]);
      t
  }

  lemma {:induction false} NaturalToStringValue(n: nat)
    ensures DigitsValue(NaturalToString(n)) == n
  {
    if n >= 10 {
      var s := NaturalToString(n);
      assert s[..|s| - 1] == NaturalToString(n / 10);
      NaturalToStringValue(n / 10);
    }
  }

  /** The text of a number parses back to the number. */
  lemma ParseIntToString(n: int, lo: int, hi: int)
    requires lo <= n <= hi
    ensures ParseSigned(IntToString(n), lo, hi) == Some(n)
  {
    NaturalToStringValue(if n < 0 then -n else n);
    if n < 0 {
      var s := IntToString(n);
      assert s[0] == '-' && s[1..] == NaturalToString(-n);
    } else {
      ParseNumeric(IntToString(n), lo, hi);
    }
  }

  /** Only the text of a non-negative number passes `isNumeric`: a sign is not a digit. */
  lemma NumericIffNonNegative(n: int)
    ensures IsNumeric(IntToString(n)) <==> n >= 0
  {
    if n < 0 {
      assert IntToString(n)[0] == '-';
    }
  }

  // ---------------------------------------------------------------------
  // Number.intValue

  /** Two's-complement truncation to 32 bits. */
  function Wrap32(x: int): (r: int)
    ensures INT_MIN <= r <= INT_MAX
    ensures INT_MIN <= x <= INT_MAX ==> r == x
  {
    (x - INT_MIN) % 0x1_0000_0000 + INT_MIN
  }

  /**
   * `intValue()`: Integer's own value, a Long's low 32 bits, and for any
   * other Number the value it reports (truncated to 32 bits so that a
   * model value cannot leave the range).
   */
  function IntValue(v: Value): (r: int)
    requires IsNumber(v)
    ensures INT_MIN <= r <= INT_MAX
    ensures v.Long? ==> (r - v.n) % 0x1_0000_0000 == 0
  {
    match v
    case Int(n) => Wrap32(n)
    case Long(n) => Wrap32(n)
    case Num(i, _) => Wrap32(i)
  }

  // ---------------------------------------------------------------------
  // String.compareToIgnoreCase

  /** Case folding of one character, restricted to ASCII letters. */
  function Fold(c: char): (f: char)
    ensures !('A' <= f <= 'Z')
  {
    if 'A' <= c <= 'Z' then ((c as int) + 32) as char else c
  }

  /**
   * The difference of the first pair of characters that differ after
   * folding, or else the difference of the lengths.
   */
  function CompareIgnoreCase(a: string, b: string): (r: int)
    ensures a == b ==> r == 0
    ensures r == 0 ==> |a| == |b|
  {
    if a == [] || b == [] then |a| - |b|
    else if Fold(a[0]) != Fold(b[0]) then (Fold(a[0]) as int) - (Fold(b[0]) as int)
    else CompareIgnoreCase(a[1..], b[1..])
  }

  lemma {:induction false} CompareIgnoreCaseAntisymmetric(a: string, b: string)
    ensures CompareIgnoreCase(a, b) == -CompareIgnoreCase(b, a)
  {
    if a != [] && b != [] && Fold(a[0]) == Fold(b[0]) {
      CompareIgnoreCaseAntisymmetric(a[1..], b[1..]);
    }
  }

  lemma {:induction false} CompareIgnoreCaseTransitive(a: string, b: string, c: string)
    requires CompareIgnoreCase(a, b) <= 0 && CompareIgnoreCase(b, c) <= 0
    ensures CompareIgnoreCase(a, c) <= 0
  {
    if a != [] && b != [] && c != [] && Fold(a[0]) == Fold(b[0]) == Fold(c[0]) {
      CompareIgnoreCaseTransitive(a[1..], b[1..], c[1..]);
    }
  }

  /** The string with every ASCII capital replaced by its small letter. */
  function FoldAll(s: string): (r: string)
    ensures |r| == |s| && forall i | 0 <= i < |s| :: r[i] == Fold(s[i])
  {
    seq(|s|, i requires 0 <= i < |s| => Fold(s[i]))
  }

  /** Two strings compare equal ignoring case exactly when their folded forms are the same. */
  lemma {:induction false} CompareIgnoreCaseZero(a: string, b: string)
    ensures CompareIgnoreCase(a, b) == 0 <==> FoldAll(a) == FoldAll(b)
  {
    if a != [] && b != [] {
      if Fold(a[0]) == Fold(b[0]) {
        CompareIgnoreCaseZero(a[1..], b[1..]);
        assert FoldAll(a) == [Fold(a[0])] + FoldAll(a[1..]);
        assert FoldAll(b) == [Fold(b[0])] + FoldAll(b[1..]);
      } else {
        assert FoldAll(a)[0] != FoldAll(b)[0];
      }
    }
  }

  /** Strings that differ only in the case of ASCII letters compare equal. */
  lemma {:induction false} CompareIgnoreCaseOfFolded(a: string, b: string)
    requires |a| == |b| && forall i | 0 <= i < |a| :: Fold(a[i]) == Fold(b[i])
    ensures CompareIgnoreCase(a, b) == 0
  {
    if a != [] {
      assert Fold(a[0]) == Fold(b[0]);
      CompareIgnoreCaseOfFolded(a[1..], b[1..]);
    }
  }

  // ---------------------------------------------------------------------
  // String.getBytes() and new String(byte[])

  /** The platform charset, taken to be ISO-8859-1: unmappable characters become '?'. */
  function EncodeChar(c: char): byte
  {
    if (c as int) < 256 then (c as int) as byte else ('?' as int) as byte
  }

  function Encode(s: string): (b: seq<byte>)
    ensures |b| == |s|
  {
    seq(|s|, i requires 0 <= i < |s| => EncodeChar(s[i]))
  }

  function Decode(b: seq<byte>): (s: string)
    ensures |s| == |b|
  {
    seq(|b|, i requires 0 <= i < |b| => (b[i] as int) as char)
  }

  predicate InCharset(s: string) {
    forall i | 0 <= i < |s| :: (s[i] as int) < 256
  }

  lemma DecodeEncode(s: string)
    requires InCharset(s)
    ensures Decode(Encode(s)) == s
  {
    var t := Decode(Encode(s));
    forall i | 0 <= i < |s| ensures t[i] == s[i] {
      assert (s[i] as int) < 256;
    }
  }

  lemma EncodeDecode(b: seq<byte>)
    ensures Encode(Decode(b)) == b
  {
  }
}
