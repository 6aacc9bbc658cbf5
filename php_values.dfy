/**
 * The PHP scalar values the plugin keeps in its settings record, and the
 * three PHP conversions it applies to them: the (int) cast, conversion to
 * string, and empty().
 */
module PhpValues {

  /** The PHP values the settings hold: int, string, bool or null (floats are not modelled). */
  datatype Value = Int(i: int) | Str(s: string) | Bool(b: bool) | Null

  /** PHP's max() on two integers. */
  function Max(a: int, b: int): (m: int)
    ensures m >= a && m >= b
    ensures m == a || m == b
  {
    if a >= b then a else b
  }

  predicate IsDigit(c: char) {
    '0' <= c <= '9'
  }

  /** The whitespace PHP skips in front of a numeric string. */
  predicate IsSpace(c: char) {
    c == ' ' || c == '\t' || c == '\n' || c == '\r' || c == '\U{000B}' || c == '\U{000C}'
  }

  predicate AllDigits(s: string) {
    forall i :: 0 <= i < |s| ==> IsDigit(s[i])
  }

  function DigitChar(d: nat): (c: char)
    requires d < 10
    ensures IsDigit(c)
  {
    ('0' as int + d) as char
  }

  /** Decimal notation of a natural number, most significant digit first. */
  function NatToString(n: nat): (s: string)
    ensures |s| >= 1 && AllDigits(s)
    decreases n
  {
    if n < 10 then [DigitChar(n)] else NatToString(n / 10) + [DigitChar(n % 10)]
  }

  /** The number a string of decimal digits denotes. */
  function DigitsValue(s: string): nat
    requires AllDigits(s)
    decreases |s|
  {
    if s == [] then 0
    else DigitsValue(s[..|s| - 1]) * 10 + (s[|s| - 1] as int - '0' as int)
  }

  /** The longest prefix of s made of decimal digits. */
  function LeadingDigits(s: string): (d: string)
    ensures |d| <= |s| && d == s[..|d|] && AllDigits(d)
    ensures |d| < |s| ==> !IsDigit(s[|d|])
    decreases |s|
  {
    if s != [] && IsDigit(s[0]) then [s[0]] + LeadingDigits(s[1..]) else []
  }

  /** s without its leading whitespace. */
  function SkipSpace(s: string): (t: string)
    ensures |t| <= |s| && t == s[|s| - |t|..]
    ensures t == [] || !IsSpace(t[0])
    decreases |s|
  {
    if s != [] && IsSpace(s[0]) then SkipSpace(s[1..]) else s
  }

  /**
   * PHP's (int) cast of a string: leading whitespace, an optional sign and
   * the longest run of digits that follows; anything else yields 0.
   */
  function StrToInt(s: string): (r: int)
    ensures r < 0 ==> SkipSpace(s) != [] && SkipSpace(s)[0] == '-'
    ensures SkipSpace(s) != [] && IsDigit(SkipSpace(s)[0]) ==> r >= 0
  {
    var t := SkipSpace(s);
    if t != [] && t[0] == '-' then -(DigitsValue(LeadingDigits(t[1..])) as int)
    else if t != [] && t[0] == '+' then DigitsValue(LeadingDigits(t[1..]))
    else DigitsValue(LeadingDigits(t))
  }

  /** PHP's decimal rendering of an integer (string conversion, and sprintf's %d). */
  function IntToString(i: int): (s: string)
    ensures |s| >= 1
    ensures i >= 0 ==> AllDigits(s)
    ensures i < 0 ==> s[0] == '-' && AllDigits(s[1..])
  {
    if i < 0 then "-" + NatToString(-i) else NatToString(i)
  }

  /** PHP's (int) cast. */
  function IntCast(v: Value): (r: int)
    ensures v.Int? ==> r == v.i
    ensures v.Str? && v.s != [] && AllDigits(v.s) ==> r == DigitsValue(v.s)
  {
    match v
    case Int(i) => i
    case Str(s) => StrToIntOfDigits(s); StrToInt(s)
    case Bool(b) => if b then 1 else 0
    case Null => 0
  }

  /** PHP's string conversion (what strpos and sprintf's %s see). */
  function AsString(v: Value): (r: string)
    ensures v.Str? ==> r == v.s
    ensures v.Int? ==> r != [] && (v.i >= 0 ==> AllDigits(r))
    ensures !v.Int? && !v.Str? ==> (r == [] <==> IsEmpty(v))
  {
    match v
    case Int(i) => IntToString(i)
    case Str(s) => s
    case Bool(b) => if b then "1" else ""
    case Null => ""
  }

  /** PHP's empty() on a scalar. */
  predicate IsEmpty(v: Value)
    ensures IsEmpty(v) ==> IntCast(v) == 0
  {
    match v
    case Int(i) => i == 0
    case Str(s) => StrToIntOfEmptyAndZero(); s == "" || s == "0"
    case Bool(b) => !b
    case Null => true
  }

  lemma {:induction false} DigitsValueOfNatToString(n: nat)
    ensures DigitsValue(NatToString(n)) == n
    decreases n
  {
    if n >= 10 {
      var s := NatToString(n);
      assert s[..|s| - 1] == NatToString(n / 10);
      DigitsValueOfNatToString(n / 10);
    }
  }

  /** The digit run of a digit string followed by a non-digit is the digit string itself. */
  lemma {:induction false} LeadingDigitsOfDigitsThen(d: string, rest: string)
    requires AllDigits(d)
    requires rest == [] || !IsDigit(rest[0])
    ensures LeadingDigits(d + rest) == d
    decreases |d|
  {
    if d != [] {
      assert (d + rest)[1..] == d[1..] + rest;
      LeadingDigitsOfDigitsThen(d[1..], rest);
    } else {
      assert d + rest == rest;
    }
  }

  /** A digit string followed by a non-digit reads back as the number it denotes. */
  lemma StrToIntOfDigitsThen(d: string, rest: string)
    requires d != [] && AllDigits(d)
    requires rest == [] || !IsDigit(rest[0])
    ensures StrToInt(d + rest) == DigitsValue(d)
  {
    var s := d + rest;
    assert s != [] && IsDigit(s[0]) by { assert s[0] == d[0]; }
    StrToIntOfDigitHead(s);
    LeadingDigitsOfDigitsThen(d, rest);
  }

  /** Text starting with a digit casts to the value of its leading digits. */
  lemma StrToIntOfDigitHead(s: string)
    requires s != [] && IsDigit(s[0])
    ensures StrToInt(s) == DigitsValue(LeadingDigits(s))
  {
    assert !IsSpace(s[0]) && s[0] != '-' && s[0] != '+';
    assert SkipSpace(s) == s;
  }

  /** A minus sign, a digit string and a non-digit read back as the negated number. */
  lemma StrToIntOfMinusDigitsThen(d: string, rest: string)
    requires AllDigits(d)
    requires rest == [] || !IsDigit(rest[0])
    ensures StrToInt("-" + d + rest) == -(DigitsValue(d) as int)
  {
    var s := "-" + d + rest;
    assert s[0] == '-';
    assert SkipSpace(s) == s;
    assert s[1..] == d + rest;
    LeadingDigitsOfDigitsThen(d, rest);
  }

  /**
   * Reading back the decimal text of an integer, followed by anything that
   * does not start with a digit, gives the integer back.
   */
  lemma {:induction false} StrToIntOfIntToString(i: int, rest: string)
    requires rest == [] || !IsDigit(rest[0])
    ensures StrToInt(IntToString(i) + rest) == i
  {
    if i < 0 {
      var n: nat := -i;
      var d := NatToString(n);
      assert IntToString(i) == "-" + d;
      DigitsValueOfNatToString(n);
      StrToIntOfMinusDigitsThen(d, rest);
    } else {
      var n: nat := i;
      var d := NatToString(n);
      assert IntToString(i) == d;
      DigitsValueOfNatToString(n);
      StrToIntOfDigitsThen(d, rest);
    }
  }

  /** The (int) cast undoes the string conversion of an int. */
  lemma {:induction false} IntCastOfAsString(i: int)
    ensures IntCast(Str(AsString(Int(i)))) == i
  {
    StrToIntOfIntToString(i, []);
    assert IntToString(i) + [] == IntToString(i);
  }

  /** A non-empty string of digits casts to the number it denotes. */
  lemma StrToIntOfDigits(s: string)
    ensures s != [] && AllDigits(s) ==> StrToInt(s) == DigitsValue(s)
  {
    if s != [] && AllDigits(s) {
      StrToIntOfDigitsThen(s, []);
      assert s + [] == s;
    }
  }

  /** The two strings empty() holds for both cast to 0. */
  lemma StrToIntOfEmptyAndZero()
    ensures StrToInt("") == 0 && StrToInt("0") == 0
  {
    assert SkipSpace("") == "" && LeadingDigits("") == [];
    var z := "0";
    assert AllDigits(z) && z[..0] == [];
    assert DigitsValue(z) == 0;
    StrToIntOfDigits(z);
  }

  /** A string with no digit at all casts to 0. */
  lemma {:induction false} StrToIntWithoutDigits(s: string)
    requires forall k :: 0 <= k < |s| ==> !IsDigit(s[k])
    ensures StrToInt(s) == 0
  {
    var t := SkipSpace(s);
    assert forall k :: 0 <= k < |t| ==> t[k] == s[|s| - |t| + k];
    if t != [] && (t[0] == '-' || t[0] == '+') {
      assert LeadingDigits(t[1..]) == [] by {
        if t[1..] != [] { assert t[1..][0] == t[1]; }
      }
    } else {
      assert LeadingDigits(t) == [] by {
        if t != [] { assert !IsDigit(t[0]); }
      }
    }
  }
}
