/**
 * The parts of the C library that the definition code relies on: `strstr`
 * for the "0x" marker and `strtol`/`strtoll` in bases 10 and 16.
 *
 * Integer widths follow the 32-bit-`long` targets the program is built for
 * (Windows and wasm32): `long` and `unsigned long` are 32 bits, `long long`
 * is 64 bits.
 */
module CStrings {
  import opened Options

  const LLONG_MIN: int := -0x8000_0000_0000_0000
  const LLONG_MAX: int := 0x7FFF_FFFF_FFFF_FFFF
  const LONG_MIN: int := -0x8000_0000
  const LONG_MAX: int := 0x7FFF_FFFF
  const INT_MIN: int := -0x8000_0000
  const INT_MAX: int := 0x7FFF_FFFF

  /** Number of values of a 32-bit `unsigned long`; conversion into it wraps modulo this. */
  const ULONG_MODULUS: int := 0x1_0000_0000

  type ULong = x: int | 0 <= x < ULONG_MODULUS

  /** `isspace` in the C locale. */
  predicate IsSpace(c: char) {
    c == ' ' || c == '\t' || c == '\n' || c == '\r' || c == '\U{0B}' || c == '\U{0C}'
  }

  /** The digit value `strtol` gives a character; 36 for a character that is no digit in any base. */
  function DigitValue(c: char): (d: nat)
    ensures d <= 36
  {
    if '0' <= c <= '9' then c as int - '0' as int
    else if 'a' <= c <= 'z' then c as int - 'a' as int + 10
    else if 'A' <= c <= 'Z' then c as int - 'A' as int + 10
    else 36
  }

  predicate IsDigit(c: char, base: nat) {
    DigitValue(c) < base
  }

  /** Length of the longest prefix of `s` made of digits of `base`. */
  function DigitRun(s: string, base: nat): (n: nat)
    ensures n <= |s|
    ensures forall i :: 0 <= i < n ==> IsDigit(s[i], base)
    ensures n < |s| ==> !IsDigit(s[n], base)
  {
    if s == [] || !IsDigit(s[0], base) then 0 else 1 + DigitRun(s[1..], base)
  }

  /** Length of the longest prefix of `s` made of white space. */
  function SpaceRun(s: string): (n: nat)
    ensures n <= |s|
    ensures forall i :: 0 <= i < n ==> IsSpace(s[i])
    ensures n < |s| ==> !IsSpace(s[n])
  {
    if s == [] || !IsSpace(s[0]) then 0 else 1 + SpaceRun(s[1..])
  }

  predicate AllDigits(s: string, base: nat) {
    forall i :: 0 <= i < |s| ==> IsDigit(s[i], base)
  }

  /** The number a string of digits denotes, most significant digit first. */
  function DigitsValue(s: string, base: nat): nat
    requires AllDigits(s, base)
  {
    if s == [] then 0 else DigitsValue(s[..|s| - 1], base) * base + DigitValue(s[|s| - 1])
  }

  function Clamp(v: int, lo: int, hi: int): (r: int)
    requires lo <= hi
    ensures lo <= r <= hi
    ensures lo <= v <= hi ==> r == v
  {
    if v < lo then lo else if v > hi then hi else v
  }

  /**
   * The outcome of a `strtol`-family call: the converted value and how far
   * the end pointer lies past the start of the text (0 when no digits were
   * found, in which case the end pointer is the start itself).
   */
  datatype Conversion = Conversion(value: int, consumed: nat)

  /** In base 16, an optional "0x" or "0X" is skipped, but only when a hex digit follows it. */
  predicate HasHexPrefix(s: string, p: nat) {
    p + 2 < |s| && s[p] == '0' && (s[p + 1] == 'x' || s[p + 1] == 'X') && IsDigit(s[p + 2], 16)
  }

  /** Where the digits start: after white space, an optional sign and, in base 16, an optional "0x". */
  function DigitsStart(s: string, base: nat): (p: nat)
    ensures p <= |s|
  {
    var ws := SpaceRun(s);
    var p := if ws < |s| && (s[ws] == '-' || s[ws] == '+') then ws + 1 else ws;
    if base == 16 && HasHexPrefix(s, p) then p + 2 else p
  }

  /** Whether a minus sign follows the leading white space. */
  predicate IsNegative(s: string) {
    var ws := SpaceRun(s);
    ws < |s| && s[ws] == '-'
  }

  /**
   * `strtol`/`strtoll` in base 10 or 16 for a result type with range
   * [lo, hi]: leading white space, an optional sign, in base 16 an optional
   * "0x", then the longest run of digits; an out-of-range value is clamped.
   */
  function StrToInteger(s: string, base: nat, lo: int, hi: int): (c: Conversion)
    requires base == 10 || base == 16
    requires lo <= 0 <= hi
    ensures c.consumed <= |s|
    ensures lo <= c.value <= hi
    ensures c.consumed == 0 ==> c.value == 0
  {
    var start := DigitsStart(s, base);
    var n := DigitRun(s[start..], base);
    if n == 0 then Conversion(0, 0)
    else
      var magnitude: int := DigitsValue(s[start..start + n], base);
      Conversion(Clamp(if IsNegative(s) then -magnitude else magnitude, lo, hi), start + n)
  }

  /**
   * `strcmp` with the sign-only results of the Windows C library: -1, 0 or
   * 1 as `a` sorts before, equal to or after `b`, comparing characters by
   * code.
   */
  function StrCmp(a: string, b: string): (r: int)
    ensures r == -1 || r == 0 || r == 1
    ensures r == 0 <==> a == b
  {
    if a == [] && b == [] then 0
    else if a == [] then -1
    else if b == [] then 1
    else if a[0] < b[0] then -1
    else if a[0] > b[0] then 1
    else
      assert a == [a[0]] + a[1..] && b == [b[0]] + b[1..];
      StrCmp(a[1..], b[1..])
  }

  /** A text that starts with a decimal digit sorts before one that starts with a letter. */
  lemma DigitsBelowLetters(s: string, word: string)
    requires s != [] && IsDigit(s[0], 10)
    requires word != [] && 'a' <= word[0] <= 'z'
    ensures StrCmp(s, word) == -1
  {
  }

  predicate HexMarkerAt(s: string, j: int) {
    0 <= j && j + 1 < |s| && s[j] == '0' && s[j + 1] == 'x'
  }

  /** `strstr(s, "0x")`: the index of the first occurrence of "0x", if any. */
  function FindHexMarker(s: string): (r: Option<nat>)
    ensures r.Some? ==> HexMarkerAt(s, r.value) && forall j :: 0 <= j < r.value ==> !HexMarkerAt(s, j)
    ensures r.None? ==> forall j :: 0 <= j < |s| ==> !HexMarkerAt(s, j)
  {
    if |s| < 2 then None
    else if s[0] == '0' && s[1] == 'x' then Some(0)
    else
      assert forall j :: 1 <= j < |s| ==> (HexMarkerAt(s, j) <==> HexMarkerAt(s[1..], j - 1));
      match FindHexMarker(s[1..])
      case None => None
      case Some(k) => Some(k + 1)
  }

  /** The digit character for a value below 16, lower-case as `printf("%lx")` writes it. */
  function DigitChar(d: nat): (c: char)
    requires d < 16
    ensures DigitValue(c) == d
  {
    "0123456789abcdef"[d]
  }

  /** The shortest digit string of `n` in `base`. */
  function ToDigits(n: nat, base: nat): (s: string)
    requires base == 10 || base == 16
    ensures |s| > 0 && AllDigits(s, base)
  {
    if n < base then [DigitChar(n)] else ToDigits(n / base, base) + [DigitChar(n % base)]
  }

  lemma {:induction false} ToDigitsValue(n: nat, base: nat)
    requires base == 10 || base == 16
    ensures DigitsValue(ToDigits(n, base), base) == n
  {
    var s := ToDigits(n, base);
    if n >= base {
      ToDigitsValue(n / base, base);
      assert s[..|s| - 1] == ToDigits(n / base, base);
    }
  }

  /** A decimal digit string never contains the "0x" marker. */
  lemma DecimalHasNoHexMarker(s: string)
    requires AllDigits(s, 10)
    ensures FindHexMarker(s).None?
  {
    forall j | 0 <= j < |s| ensures !HexMarkerAt(s, j) {
      if j + 1 < |s| {
        assert IsDigit(s[j + 1], 10);
      }
    }
  }

  lemma {:induction false} DigitRunOfDigits(d: string, t: string, base: nat)
    requires AllDigits(d, base)
    requires t == [] || !IsDigit(t[0], base)
    ensures DigitRun(d + t, base) == |d|
  {
    if d != [] {
      assert (d + t)[1..] == d[1..] + t;
      DigitRunOfDigits(d[1..], t, base);
    } else {
      assert d + t == t;
    }
  }

  /** A digit string followed by a non-digit converts to its value and stops at the non-digit. */
  lemma DecimalConversion(d: string, t: string)
    requires |d| > 0 && AllDigits(d, 10)
    requires t == [] || !IsDigit(t[0], 10)
    requires DigitsValue(d, 10) <= LLONG_MAX
    ensures StrToInteger(d + t, 10, LLONG_MIN, LLONG_MAX) == Conversion(DigitsValue(d, 10), |d|)
  {
    var s := d + t;
    assert IsDigit(s[0], 10);
    assert SpaceRun(s) == 0;
    assert DigitsStart(s, 10) == 0;
    assert !IsNegative(s);
    assert s[0..] == s;
    DigitRunOfDigits(d, t, 10);
    assert s[0..|d|] == d;
  }

  /** The digits of "0x" followed by a hex digit start after the marker. */
  lemma HexDigitsStart(s: string)
    requires |s| > 2 && s[0] == '0' && s[1] == 'x' && IsDigit(s[2], 16)
    ensures DigitsStart(s, 16) == 2 && !IsNegative(s)
  {
    assert SpaceRun(s) == 0 by { assert !IsSpace(s[0]); }
  }

  /** "0x" followed by hex digits converts, in base 16, to the value of the digits and consumes all of it. */
  lemma HexConversion(d: string, lo: int, hi: int)
    requires |d| > 0 && AllDigits(d, 16)
    requires lo <= 0 <= hi && DigitsValue(d, 16) <= hi
    ensures StrToInteger("0x" + d, 16, lo, hi) == Conversion(DigitsValue(d, 16), 2 + |d|)
  {
    var s := "0x" + d;
    assert s[2] == d[0];
    HexDigitsStart(s);
    assert s[2..] == d + [];
    DigitRunOfDigits(d, [], 16);
    assert s[2..2 + |d|] == d;
  }

  /** Unprefixed hex digits start at the very beginning of the text, with no sign. */
  lemma UnprefixedHexDigitsStart(s: string)
    requires |s| > 0 && IsDigit(s[0], 16)
    requires s[0] != '0' || (|s| > 1 && IsDigit(s[1], 16))
    ensures DigitsStart(s, 16) == 0 && !IsNegative(s)
  {
    assert SpaceRun(s) == 0 by { assert !IsSpace(s[0]); }
    assert !HasHexPrefix(s, 0);
  }

  /**
   * Hex digits without a "0x" prefix, followed by a text that does not
   * start with a hex digit, convert in base 16 to the clamped value of the
   * digits and stop at the end of the digits: the trailing text is ignored.
   */
  lemma HexDigitsConversion(d: string, t: string, lo: int, hi: int)
    requires |d| > 0 && AllDigits(d, 16) && (d[0] != '0' || |d| > 1)
    requires t == [] || !IsDigit(t[0], 16)
    requires lo <= 0 <= hi
    ensures StrToInteger(d + t, 16, lo, hi) == Conversion(Clamp(DigitsValue(d, 16), lo, hi), |d|)
  {
    var s := d + t;
    assert s[0] == d[0];
    assert |d| > 1 ==> s[1] == d[1];
    UnprefixedHexDigitsStart(s);
    assert s[0..] == s;
    DigitRunOfDigits(d, t, 16);
    assert s[0..|d|] == d;
  }
}
