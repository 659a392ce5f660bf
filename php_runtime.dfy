/** The few PHP built-ins the page cache relies on, stated over Dafny values:
    truthiness of the scalars it reads, the decimal rendering of an int,
    `implode`, `strtolower`, `strpos` and `array_search`. */
module PhpRuntime {

  datatype Option<+T> = None | Some(value: T)

  /** A scalar read from PHP that is either `false`/`null` (None) or a string.
      PHP treats the empty string and "0" as false. */
  predicate Truthy(v: Option<string>)
  {
    v.Some? && v.value != "" && v.value != "0"
  }

  // ---------------------------------------------------------------------
  // Decimal rendering of integers, as `implode` converts an int piece.
  // ---------------------------------------------------------------------

  predicate IsDigit(c: char)
  {
    '0' <= c <= '9'
  }

  /** A non-empty run of decimal digits. */
  predicate IsDigits(s: string)
  {
    |s| > 0 && forall i :: 0 <= i < |s| ==> IsDigit(s[i])
  }

  function DigitChar(d: nat): (c: char)
    requires d < 10
    ensures IsDigit(c) && c as int - '0' as int == d
  {
    ('0' as int + d) as char
  }

  /** The decimal digits of `n`, most significant first, without leading zeros. */
  function NatToString(n: nat): (s: string)
    ensures IsDigits(s)
    ensures s[0] == '0' ==> n == 0
  {
    if n < 10 then [DigitChar(n)] else NatToString(n / 10) + [DigitChar(n % 10)]
  }

  function DigitValue(c: char): (d: nat)
    requires IsDigit(c)
    ensures d < 10
  {
    c as int - '0' as int
  }

  /** The value of a run of decimal digits (the inverse of NatToString). */
  function DigitsToNat(s: string): nat
    requires forall i :: 0 <= i < |s| ==> IsDigit(s[i])
  {
    if s == [] then 0 else DigitsToNat(s[..|s| - 1]) * 10 + DigitValue(s[|s| - 1])
  }

  lemma {:induction false} DigitsRoundTrip(n: nat)
    ensures DigitsToNat(NatToString(n)) == n
  {
    if n >= 10 {
      DigitsRoundTrip(n / 10);
      var s := NatToString(n);
      assert s[..|s| - 1] == NatToString(n / 10);
    }
  }

  /** PHP's string form of an int: a minus sign for negatives, then the digits. */
  function IntToString(i: int): (s: string)
    ensures i >= 0 ==> IsDigits(s)
    ensures i < 0 ==> |s| >= 2 && s[0] == '-' && IsDigits(s[1..])
  {
    if i < 0 then "-" + NatToString(-i) else NatToString(i)
  }

  // ---------------------------------------------------------------------
  // implode(glue, pieces)
  // ---------------------------------------------------------------------

  /** The pieces joined by `glue`; folded from the right, which is the
      direction in which a joined key is taken apart again. */
  function Implode(glue: string, pieces: seq<string>): string
  {
    if |pieces| == 0 then ""
    else if |pieces| == 1 then pieces[0]
    else Implode(glue, pieces[..|pieces| - 1]) + glue + pieces[|pieces| - 1]
  }

  // ---------------------------------------------------------------------
  // strtolower (ASCII letters only, as PHP 8.2 and later do)
  // ---------------------------------------------------------------------

  predicate IsUpper(c: char)
  {
    'A' <= c <= 'Z'
  }

  function LowerChar(c: char): char
  {
    if IsUpper(c) then (c as int + 32) as char else c
  }

  function StrToLower(s: string): (r: string)
    ensures |r| == |s|
    ensures forall i :: 0 <= i < |r| ==> !IsUpper(r[i])
    ensures forall i :: 0 <= i < |s| && !IsUpper(s[i]) ==> r[i] == s[i]
    ensures forall i :: 0 <= i < |s| && IsUpper(s[i]) ==> r[i] as int == s[i] as int + 32
  {
    seq(|s|, i requires 0 <= i < |s| => LowerChar(s[i]))
  }

  // ---------------------------------------------------------------------
  // strpos(haystack, needle): the first position of needle, or false
  // ---------------------------------------------------------------------

  predicate OccursAt(haystack: string, needle: string, j: nat)
  {
    j + |needle| <= |haystack| && haystack[j..j + |needle|] == needle
  }

  function StrPosFrom(haystack: string, needle: string, i: nat): (r: Option<nat>)
    requires i <= |haystack|
    ensures r.Some? ==> i <= r.value && OccursAt(haystack, needle, r.value)
    ensures r.Some? ==> forall j :: i <= j < r.value ==> !OccursAt(haystack, needle, j)
    ensures r.None? ==> forall j :: i <= j ==> !OccursAt(haystack, needle, j)
    decreases |haystack| - i
  {
    if i + |needle| > |haystack| then None
    else if haystack[i..i + |needle|] == needle then Some(i)
    else StrPosFrom(haystack, needle, i + 1)
  }

  function StrPos(haystack: string, needle: string): Option<nat>
  {
    StrPosFrom(haystack, needle, 0)
  }

  /** `0 === strpos(h, n)` holds exactly when `n` is a prefix of `h`. */
  lemma StrPosZeroIffPrefix(haystack: string, needle: string)
    ensures StrPos(haystack, needle) == Some(0) <==> (|needle| <= |haystack| && haystack[..|needle|] == needle)
  {
  }

  // ---------------------------------------------------------------------
  // array_search(needle, haystack): the first key holding needle, or false
  // ---------------------------------------------------------------------

  /** On a list of ints PHP's loose comparison is plain equality. */
  function ArraySearch(needle: int, haystack: seq<int>): (r: Option<nat>)
    ensures r.Some? ==> r.value < |haystack| && haystack[r.value] == needle
    ensures r.Some? ==> needle !in haystack[..r.value]
    ensures r.None? <==> needle !in haystack
  {
    if |haystack| == 0 then None
    else if haystack[0] == needle then Some(0)
    else match ArraySearch(needle, haystack[1..])
      case None => None
      case Some(k) =>
        assert haystack[..k + 1] == [haystack[0]] + haystack[1..][..k];
        Some(k + 1)
  }
}
