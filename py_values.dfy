/**
 * The few pieces of Python value semantics the registry and the shell rely on:
 * attribute values as a tagged union, truthiness (`if not x`), `str(x)`,
 * `int(text)` on a string, and `str.strip`.
 */
module PyValues {

  datatype Option<+T> = None | Some(value: T)

  /** An attribute value as `getattr` returns it.  `Callable` stands for a
      method or a class; `Other` for any other type (float, datetime, list,
      None, ...), carried with its type name, its `str()` text and its truth. */
  datatype Value =
    | Str(s: string)
    | Int(i: int)
    | Bool(b: bool)
    | Callable(text: string)
    | Other(typeName: string, text: string, truthy: bool)

  /** Exceptions that escape the core uncaught. */
  datatype Exception =
    | ValueError          // int() of a string that is not an integer literal
    | AttributeError      // None.to_dict(), a missing `id`, `.get` on a non-dict
    | ForeignConversion   // a conversion into a type outside Str/Int/Bool (float, datetime, ...)

  /** How a call ends: normally, or with an exception that propagates. */
  datatype Outcome = Completed | Raised(exc: Exception)

  /** Python's truth test. */
  predicate Truthy(v: Value)
  {
    match v
    case Str(s) => s != ""
    case Int(i) => i != 0
    case Bool(b) => b
    case Callable(_) => true
    case Other(_, _, t) => t
  }

  predicate IsDigit(c: char) { '0' <= c <= '9' }

  function DigitChar(d: nat): (c: char)
    requires d < 10
    ensures IsDigit(c) && DigitValue(c) == d
  {
    "0123456789"[d]
  }

  function DigitValue(c: char): nat
    requires IsDigit(c)
  {
    c as int - '0' as int
  }

  /** The decimal digits of `n`, most significant first, without leading zeros. */
  function NatToString(n: nat): (r: string)
    ensures |r| > 0 && IsDigit(r[0]) && IsDigit(r[|r| - 1])
    ensures forall i :: 0 <= i < |r| ==> IsDigit(r[i])
    ensures |r| > 1 ==> r[0] != '0'
    decreases n
  {
    if n < 10 then [DigitChar(n)] else NatToString(n / 10) + [DigitChar(n % 10)]
  }

  /** `str(i)` for an int. */
  function IntToString(i: int): string
  {
    if i < 0 then "-" + NatToString(-i) else NatToString(i)
  }

  /** `str(v)`: the text an f-string interpolates. */
  function StrOf(v: Value): string
  {
    match v
    case Str(s) => s
    case Int(i) => IntToString(i)
    case Bool(b) => if b then "True" else "False"
    case Callable(t) => t
    case Other(_, t, _) => t
  }

  /** The characters `str.isspace` accepts (and `str.strip()` removes). */
  predicate IsSpace(c: char)
  {
    || c == ' ' || '\t' <= c <= '\r' || '\U{1C}' <= c <= '\U{1F}'
    || c == '\U{85}' || c == '\U{A0}' || c == '\U{1680}'
    || '\U{2000}' <= c <= '\U{200A}' || c == '\U{2028}' || c == '\U{2029}'
    || c == '\U{202F}' || c == '\U{205F}' || c == '\U{3000}'
  }

  /** The characters a strip removes: whitespace for `strip()`, the given
      characters for `strip(chars)`. */
  datatype StripSet = Whitespace | Chars(chars: set<char>)

  predicate Drops(drop: StripSet, c: char)
  {
    match drop
    case Whitespace => IsSpace(c)
    case Chars(cs) => c in cs
  }

  /** Removes the leading characters that `drop` accepts. */
  function StripStart(s: string, drop: StripSet): (r: string)
    ensures |r| <= |s| && r == s[|s| - |r|..]
    ensures forall i :: 0 <= i < |s| - |r| ==> Drops(drop, s[i])
    ensures r == [] || !Drops(drop, r[0])
  {
    if s != [] && Drops(drop, s[0]) then StripStart(s[1..], drop) else s
  }

  /** Removes the trailing characters that `drop` accepts. */
  function StripEnd(s: string, drop: StripSet): (r: string)
    ensures |r| <= |s| && r == s[..|r|]
    ensures forall i :: |r| <= i < |s| ==> Drops(drop, s[i])
    ensures r == [] || !Drops(drop, r[|r| - 1])
  {
    if s != [] && Drops(drop, s[|s| - 1]) then StripEnd(s[..|s| - 1], drop) else s
  }

  /** `s.strip(chars)`: both ends. */
  function StripChars(s: string, drop: StripSet): string
  {
    StripEnd(StripStart(s, drop), drop)
  }

  /** `s.strip()` */
  function Strip(s: string): string
  {
    StripChars(s, Whitespace)
  }

  /** A run of ASCII digits with single underscores between digits, as
      Python's integer literal grammar allows. */
  predicate WellGrouped(d: string)
  {
    && |d| > 0 && IsDigit(d[0]) && IsDigit(d[|d| - 1])
    && (forall i :: 0 <= i < |d| ==> IsDigit(d[i]) || d[i] == '_')
    && (forall i :: 0 <= i < |d| - 1 ==> !(d[i] == '_' && d[i + 1] == '_'))
  }

  function DropUnderscores(d: string): (r: string)
    ensures |r| <= |d|
    ensures (forall i :: 0 <= i < |d| ==> IsDigit(d[i]) || d[i] == '_') ==>
              forall i :: 0 <= i < |r| ==> IsDigit(r[i])
  {
    if d == [] then []
    else (if d[0] == '_' then [] else [d[0]]) + DropUnderscores(d[1..])
  }

  /** The number a string of decimal digits denotes. */
  function DigitsValue(d: string): nat
    requires forall i :: 0 <= i < |d| ==> IsDigit(d[i])
  {
    if d == [] then 0
    else DigitsValue(d[..|d| - 1]) * 10 + DigitValue(d[|d| - 1])
  }

  function ParseUnsigned(d: string): Option<nat>
  {
    if WellGrouped(d) then Some(DigitsValue(DropUnderscores(d))) else None
  }

  /** `int(s)` for a string `s`: None where Python raises ValueError.
      Only ASCII digits are read (see README, "Left out"). */
  function ParseInt(s: string): Option<int>
  {
    var t := Strip(s);
    if |t| > 0 && (t[0] == '-' || t[0] == '+') then
      match ParseUnsigned(t[1..])
      case None => None
      case Some(n) => Some(if t[0] == '-' then -(n as int) else n as int)
    else
      match ParseUnsigned(t)
      case None => None
      case Some(n) => Some(n)
  }

  lemma {:induction false} DropUnderscoresOfDigits(d: string)
    requires forall i :: 0 <= i < |d| ==> IsDigit(d[i])
    ensures DropUnderscores(d) == d
  {
    if d != [] {
      DropUnderscoresOfDigits(d[1..]);
    }
  }

  lemma {:induction false} DigitsValueOfNatToString(n: nat)
    ensures DigitsValue(NatToString(n)) == n
    decreases n
  {
    var r := NatToString(n);
    if n >= 10 {
      var p := NatToString(n / 10);
      assert r == p + [DigitChar(n % 10)];
      assert r[..|r| - 1] == p;
      DigitsValueOfNatToString(n / 10);
    }
  }

  lemma StripOfUnpadded(s: string)
    requires s != [] && !IsSpace(s[0]) && !IsSpace(s[|s| - 1])
    ensures Strip(s) == s
  {
  }

  /** `int(str(i)) == i`: the text Python prints for an int reads back as it. */
  lemma ParseIntRoundTrip(i: int)
    ensures ParseInt(IntToString(i)) == Some(i)
  {
    var t := IntToString(i);
    StripOfUnpadded(t);
    if i < 0 {
      var d := NatToString(-i);
      assert t == "-" + d && t[1..] == d;
      ParseUnsignedOfNatToString(-i);
    } else {
      ParseUnsignedOfNatToString(i);
    }
  }

  lemma ParseUnsignedOfNatToString(n: nat)
    ensures ParseUnsigned(NatToString(n)) == Some(n)
  {
    var digits := NatToString(n);
    DropUnderscoresOfDigits(digits);
    DigitsValueOfNatToString(n);
    assert WellGrouped(digits);
  }

  /** A string that holds no digit at all is not an int literal. */
  lemma ParseIntNeedsDigits(s: string)
    requires forall i :: 0 <= i < |s| ==> !IsDigit(s[i])
    ensures ParseInt(s) == None
  {
    var t := Strip(s);
    assert forall i :: 0 <= i < |t| ==> !IsDigit(t[i]) by {
      var a := StripStart(s, Whitespace);
      assert forall i :: 0 <= i < |a| ==> a[i] == s[|s| - |a| + i];
    }
    if |t| > 0 && (t[0] == '-' || t[0] == '+') {
      assert !WellGrouped(t[1..]) by {
        if |t[1..]| > 0 { assert t[1..][0] == t[1]; }
      }
    }
  }
}
