/**
 * ECMAScript `parseInt(s, 10)` (section 19.2.5 of ECMA-262): skip leading
 * white space and line terminators, take an optional sign, then the longest
 * run of decimal digits. With no digit the result is NaN (here `None`).
 * Anything after the digits is ignored. With radix 10 no `0x` prefix is
 * recognised.
 */
module ParseInt {
  import opened Opt

  /** StrWhiteSpaceChar of ECMA-262: WhiteSpace (TAB, VT, FF, ZWNBSP and the
      Unicode Zs category) and LineTerminator (LF, CR, LS, PS). */
  predicate IsStrWhiteSpace(c: char) {
    || c == '\t' || c == '\U{000B}' || c == '\U{000C}' || c == '\U{FEFF}'
    || c == ' ' || c == '\U{00A0}' || c == '\U{1680}' || ('\U{2000}' <= c <= '\U{200A}')
    || c == '\U{202F}' || c == '\U{205F}' || c == '\U{3000}'
    || c == '\n' || c == '\r' || c == '\U{2028}' || c == '\U{2029}'
  }

  predicate IsDecimalDigit(c: char) {
    '0' <= c <= '9'
  }

  predicate IsSign(c: char) {
    c == '+' || c == '-'
  }

  /** The string without its leading white space. */
  function TrimStart(s: string): string
  {
    if s != [] && IsStrWhiteSpace(s[0]) then TrimStart(s[1..]) else s
  }

  /** Trimming leaves a suffix of `s`, preceded only by white space and not
      itself starting with white space. */
  lemma {:induction false} TrimStartIsSuffix(s: string)
    ensures |TrimStart(s)| <= |s| && TrimStart(s) == s[|s| - |TrimStart(s)|..]
    ensures forall j :: 0 <= j < |s| - |TrimStart(s)| ==> IsStrWhiteSpace(s[j])
    ensures TrimStart(s) == [] || !IsStrWhiteSpace(TrimStart(s)[0])
  {
    if s != [] && IsStrWhiteSpace(s[0]) {
      var r := TrimStart(s[1..]);
      TrimStartIsSuffix(s[1..]);
      assert TrimStart(s) == r;
      assert s[1..][|s| - 1 - |r|..] == s[|s| - |r|..];
      forall j | 0 <= j < |s| - |r|
        ensures IsStrWhiteSpace(s[j])
      {
        if j > 0 {
          assert s[j] == s[1..][j - 1];
        }
      }
    }
  }

  /** The longest prefix of `s` made of decimal digits. */
  function DigitPrefix(s: string): (ds: string)
    ensures |ds| <= |s|
    ensures forall j :: 0 <= j < |ds| ==> IsDecimalDigit(ds[j])
  {
    if s != [] && IsDecimalDigit(s[0]) then [s[0]] + DigitPrefix(s[1..]) else []
  }

  /** The digit prefix is a prefix, and the character after it is no digit. */
  lemma {:induction false} DigitPrefixIsLongest(s: string)
    ensures DigitPrefix(s) <= s
    ensures |DigitPrefix(s)| == |s| || !IsDecimalDigit(s[|DigitPrefix(s)|])
  {
    if s != [] && IsDecimalDigit(s[0]) {
      DigitPrefixIsLongest(s[1..]);
    }
  }

  function DigitValue(c: char): nat
    requires IsDecimalDigit(c)
  {
    c as int - '0' as int
  }

  /** The value of a string of decimal digits, most significant first. */
  function DigitsValue(ds: string): nat
    requires forall j :: 0 <= j < |ds| ==> IsDecimalDigit(ds[j])
  {
    if ds == [] then 0
    else 10 * DigitsValue(ds[..|ds| - 1]) + DigitValue(ds[|ds| - 1])
  }

  /** The text after an optional leading sign. */
  function WithoutSign(t: string): string {
    if t != [] && IsSign(t[0]) then t[1..] else t
  }

  /** The digits `parseInt` reads: those after the leading white space and
      the optional sign. */
  function DigitsRead(s: string): (ds: string)
    ensures forall j :: 0 <= j < |ds| ==> IsDecimalDigit(ds[j])
  {
    DigitPrefix(WithoutSign(TrimStart(s)))
  }

  /**
   * `parseInt(s, 10)`, `None` for NaN: NaN exactly when no decimal digit
   * follows the leading white space and optional sign. The value is the
   * mathematical integer; a JavaScript number rounds it above 2^53.
   */
  function ParseInt10(s: string): (r: Option<int>)
    ensures r.None? <==> !HasLeadingInteger(s)
  {
    DigitsReadIff(s);
    var t := TrimStart(s);
    var ds := DigitsRead(s);
    if ds == [] then None
    else
      var magnitude: int := DigitsValue(ds);
      Some(if t[0] == '-' then -magnitude else magnitude)
  }

  /** A decimal digit at position `k` that only white space, and possibly a
      sign right before it, precedes. */
  predicate DigitAfterBlanksAndSign(s: string, k: int) {
    && 0 <= k < |s|
    && IsDecimalDigit(s[k])
    && ((forall j :: 0 <= j < k ==> IsStrWhiteSpace(s[j]))
        || (k >= 1 && IsSign(s[k - 1]) && forall j :: 0 <= j < k - 1 ==> IsStrWhiteSpace(s[j])))
  }

  /** The reference definition of "parseInt gives a number". */
  predicate HasLeadingInteger(s: string) {
    exists k | 0 <= k < |s| :: DigitAfterBlanksAndSign(s, k)
  }

  /** Whatever white space the string starts with, trimming reaches its first
      other character. */
  lemma {:induction false} TrimStartSkips(s: string, k: nat)
    requires k <= |s|
    requires forall j :: 0 <= j < k ==> IsStrWhiteSpace(s[j])
    requires k == |s| || !IsStrWhiteSpace(s[k])
    ensures TrimStart(s) == s[k..]
  {
    if k > 0 {
      assert IsStrWhiteSpace(s[0]);
      TrimStartSkips(s[1..], k - 1);
      assert s[1..][k - 1..] == s[k..];
    }
  }

  /** A digit after blanks and an optional sign gives `parseInt` digits to read. */
  lemma {:induction false} LeadingIntegerParses(s: string, k: nat)
    requires DigitAfterBlanksAndSign(s, k)
    ensures DigitsRead(s) != []
  {
    var t := TrimStart(s);
    if forall j :: 0 <= j < k ==> IsStrWhiteSpace(s[j]) {
      TrimStartSkips(s, k);
      assert t == s[k..] && t[0] == s[k];
      assert WithoutSign(t) == t;
    } else {
      TrimStartSkips(s, k - 1);
      assert t == s[k - 1..] && t[1..] == s[k..];
      assert WithoutSign(t) == s[k..];
    }
  }

  /** Digits that `parseInt` reads come after blanks and an optional sign. */
  lemma {:induction false} ParsedHasLeadingInteger(s: string)
    requires DigitsRead(s) != []
    ensures HasLeadingInteger(s)
  {
    var t := TrimStart(s);
    var n := |s| - |t|;
    TrimStartIsSuffix(s);
    DigitPrefixIsLongest(WithoutSign(t));
    if t != [] && IsSign(t[0]) {
      assert t[1] == s[n + 1];
      assert DigitAfterBlanksAndSign(s, n + 1);
    } else {
      assert t[0] == s[n];
      assert DigitAfterBlanksAndSign(s, n);
    }
  }

  /** `parseInt` has digits to read exactly when a decimal digit follows the
      leading white space and optional sign. */
  lemma {:induction false} DigitsReadIff(s: string)
    ensures DigitsRead(s) != [] <==> HasLeadingInteger(s)
  {
    if DigitsRead(s) != [] {
      ParsedHasLeadingInteger(s);
    } else if k :| 0 <= k < |s| && DigitAfterBlanksAndSign(s, k) {
      LeadingIntegerParses(s, k);
    }
  }

  /** The digit for `0 <= d < 10`. */
  function DigitChar(d: nat): (c: char)
    requires d < 10
    ensures IsDecimalDigit(c) && c as int - '0' as int == d
  {
    ('0' as int + d) as char
  }

  /** The decimal digits of a non-negative integer, without leading zeros
      (what JavaScript's `String(n)` gives for `n < 10^21`). */
  function DecimalString(n: nat): (s: string)
    ensures s != []
    ensures forall j :: 0 <= j < |s| ==> IsDecimalDigit(s[j])
  {
    if n < 10 then [DigitChar(n)] else DecimalString(n / 10) + [DigitChar(n % 10)]
  }

  /** The decimal form of any integer: a minus sign before the digits of a
      negative one (JavaScript's `String(i)` only for `|i| < 10^21`). */
  function IntToString(i: int): string {
    if i < 0 then ['-'] + DecimalString(-i) else DecimalString(i)
  }

  lemma {:induction false} DecimalStringValue(n: nat)
    ensures DigitsValue(DecimalString(n)) == n
  {
    if n >= 10 {
      var s := DecimalString(n);
      assert s[..|s| - 1] == DecimalString(n / 10);
      DecimalStringValue(n / 10);
    }
  }

  /** The digit prefix stops where the digits stop. */
  lemma {:induction false} DigitPrefixOfDigits(ds: string, junk: string)
    requires forall j :: 0 <= j < |ds| ==> IsDecimalDigit(ds[j])
    requires junk == [] || !IsDecimalDigit(junk[0])
    ensures DigitPrefix(ds + junk) == ds
  {
    if ds != [] {
      assert (ds + junk)[1..] == ds[1..] + junk;
      DigitPrefixOfDigits(ds[1..], junk);
      assert [ds[0]] + ds[1..] == ds;
    } else {
      assert ds + junk == junk;
    }
  }

  /** Digits, then something other than a digit. */
  lemma {:induction false} ParseUnsignedDigits(ds: string, junk: string)
    requires ds != [] && forall j :: 0 <= j < |ds| ==> IsDecimalDigit(ds[j])
    requires junk == [] || !IsDecimalDigit(junk[0])
    ensures ParseInt10(ds + junk) == Some(DigitsValue(ds))
  {
    var s := ds + junk;
    assert s[0] == ds[0] && IsDecimalDigit(s[0]);
    assert TrimStart(s) == s;
    assert WithoutSign(s) == s;
    DigitPrefixOfDigits(ds, junk);
  }

  /** A minus sign, digits, then something other than a digit. */
  lemma {:induction false} ParseNegativeDigits(ds: string, junk: string)
    requires ds != [] && forall j :: 0 <= j < |ds| ==> IsDecimalDigit(ds[j])
    requires junk == [] || !IsDecimalDigit(junk[0])
    ensures ParseInt10(['-'] + ds + junk) == Some(-(DigitsValue(ds) as int))
  {
    var u := ds + junk;
    var s := ['-'] + u;
    assert ['-'] + ds + junk == s;
    assert !IsStrWhiteSpace(s[0]);
    assert TrimStart(s) == s;
    assert s[1..] == u;
    assert WithoutSign(s) == u;
    DigitPrefixOfDigits(ds, junk);
    assert DigitPrefix(WithoutSign(TrimStart(s))) == ds;
  }

  /**
   * Round trip: parsing the decimal form of any integer `i`, followed by
   * trailing text that does not start with a digit, gives back `i`; so
   * `12abc` parses as 12.
   */
  lemma {:induction false} ParseIntRoundTrip(i: int, junk: string)
    requires junk == [] || !IsDecimalDigit(junk[0])
    ensures ParseInt10(IntToString(i) + junk) == Some(i)
  {
    if i < 0 {
      var digits := DecimalString(-i);
      DecimalStringValue(-i);
      ParseNegativeDigits(digits, junk);
    } else {
      DecimalStringValue(i);
      ParseUnsignedDigits(DecimalString(i), junk);
    }
  }
}
