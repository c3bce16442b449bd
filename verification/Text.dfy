/** The order in which Go compares strings, and a few string functions of its library. */
module Text {
  /** Go's `<` on strings: lexicographic (Dafny's own `<` is the prefix order). */
  predicate Less(a: string, b: string) {
    if b == [] then false
    else if a == [] then true
    else a[0] < b[0] || (a[0] == b[0] && Less(a[1..], b[1..]))
  }

  /** `a` and `b` agree on their first `n` characters; then `a` ends, or has the smaller character. */
  predicate SmallerAt(a: string, b: string, n: nat) {
    n <= |a| && n < |b| && a[..n] == b[..n] && (n == |a| || a[n] < b[n])
  }

  /** The order is lexicographic, by the codes of the characters. */
  lemma {:induction false} LessIsLexicographic(a: string, b: string)
    ensures Less(a, b) <==> exists n: nat :: SmallerAt(a, b, n)
  {
    if Less(a, b) {
      if a == [] || a[0] < b[0] {
        assert SmallerAt(a, b, 0);
      } else {
        LessIsLexicographic(a[1..], b[1..]);
        var n: nat :| SmallerAt(a[1..], b[1..], n);
        SmallerLater(a, b, n);
      }
    }
    if exists n: nat :: SmallerAt(a, b, n) {
      var n: nat :| SmallerAt(a, b, n);
      if n > 0 {
        SmallerLater(a, b, n - 1);
        LessIsLexicographic(a[1..], b[1..]);
      }
    }
  }

  lemma SmallerLater(a: string, b: string, n: nat)
    requires a != [] && b != []
    ensures SmallerAt(a, b, n + 1) <==> a[0] == b[0] && SmallerAt(a[1..], b[1..], n)
  {
    if n < |a| && n + 1 < |b| {
      assert a[..n+1] == [a[0]] + a[1..][..n] && b[..n+1] == [b[0]] + b[1..][..n];
      assert a[1..][..n] == a[..n+1][1..] && b[1..][..n] == b[..n+1][1..];
    }
  }

  lemma {:induction false} LessIsTotal(a: string, b: string)
    ensures Less(a, b) || Less(b, a) || a == b
    ensures !(Less(a, b) && Less(b, a))
    ensures !Less(a, a)
  {
    if a != [] && b != [] {
      LessIsTotal(a[1..], b[1..]);
      if a[0] == b[0] && a[1..] == b[1..] {
        assert a == [a[0]] + a[1..] && b == [b[0]] + b[1..];
      }
    }
    if a != [] {
      LessIsTotal(a[1..], a[1..]);
    }
  }

  lemma {:induction false} LessIsTransitive(a: string, b: string, c: string)
    requires Less(a, b) && Less(b, c)
    ensures Less(a, c)
  {
    if a != [] && a[0] == b[0] && b[0] == c[0] {
      LessIsTransitive(a[1..], b[1..], c[1..]);
    }
  }

  /** `strings.LastIndex` for a single character: its last position, or -1. */
  function LastIndex(s: string, c: char): (i: int)
    ensures -1 <= i < |s|
    ensures i >= 0 ==> s[i] == c
    ensures forall j :: i < j < |s| ==> s[j] != c
  {
    if s == [] then -1
    else if s[|s|-1] == c then |s| - 1
    else LastIndex(s[..|s|-1], c)
  }

  // ---------------------------------------------------------------- printing and scanning integers

  /** Decimal digits of a number, as `%d` prints them. */
  function PrintNat(n: nat): (s: string)
    ensures s != ""
  {
    if n < 10 then [Digit(n)] else PrintNat(n / 10) + [Digit(n % 10)]
  }

  function Digit(n: int): char
    requires 0 <= n < 10
  {
    ('0' as int + n) as char
  }

  const DIGITS := "0123456789"

  /** The last digit, the digits before it, and no zero in front. */
  lemma {:induction false} PrintsDigits(n: nat)
    ensures PrintNat(n)[|PrintNat(n)|-1] == DIGITS[n % 10]
    ensures PrintNat(n)[..|PrintNat(n)|-1] == if n < 10 then "" else PrintNat(n / 10)
    ensures n > 0 ==> PrintNat(n)[0] != '0'
  {
    if n >= 10 {
      PrintsDigits(n / 10);
    }
  }

  function PrintInt(n: int): string {
    if n < 0 then "-" + PrintNat(-n) else PrintNat(n)
  }

  predicate IsDigit(c: char) {
    '0' <= c <= '9'
  }

  predicate AllDigits(s: string) {
    forall i :: 0 <= i < |s| ==> IsDigit(s[i])
  }

  function Value(s: string): nat
    requires AllDigits(s)
  {
    if s == [] then 0 else Value(s[..|s|-1]) * 10 + (s[|s|-1] as int - '0' as int)
  }

  lemma {:induction false} PrintedValue(n: nat)
    ensures PrintNat(n) != [] && AllDigits(PrintNat(n)) && Value(PrintNat(n)) == n
  {
    if n < 10 {
      assert PrintNat(n)[..0] == [];
    } else {
      PrintedValue(n / 10);
      assert PrintNat(n)[..|PrintNat(n)|-1] == PrintNat(n / 10);
    }
  }

  /** Different numbers are printed differently. */
  lemma PrintNatInjective(m: nat, n: nat)
    requires PrintNat(m) == PrintNat(n)
    ensures m == n
  {
    PrintedValue(m);
    PrintedValue(n);
  }

  function LeadingDigits(s: string): (d: string)
    ensures AllDigits(d) && d <= s
    ensures AllDigits(s) ==> d == s
  {
    if s == [] || !IsDigit(s[0]) then [] else [s[0]] + LeadingDigits(s[1..])
  }

  function SkipBlanks(s: string): string {
    if s != [] && (s[0] == ' ' || s[0] == '\t' || s[0] == 11 as char || s[0] == 12 as char || s[0] == '\r')
    then SkipBlanks(s[1..]) else s
  }

  const MAX_INT64: int := 0x7fff_ffff_ffff_ffff

  /** What `fmt.Sscanf(s, "%d", &v)` leaves in an int64 that was zero: blanks and a sign may come first,
      anything may follow, and on an error, overflow included, the variable stays zero. */
  function ScanInt(s: string): int {
    var t := SkipBlanks(s);
    var signed := t != [] && (t[0] == '-' || t[0] == '+');
    var digits := LeadingDigits(if signed then t[1..] else t);
    if digits == [] then 0
    else
      var v: int := if signed && t[0] == '-' then 0 - Value(digits) else Value(digits);
      if -MAX_INT64 - 1 <= v <= MAX_INT64 then v else 0
  }

  lemma ScanDigits(s: string)
    requires s != [] && AllDigits(s) && Value(s) <= MAX_INT64
    ensures ScanInt(s) == Value(s)
  {
    hide Value;
    assert IsDigit(s[0]);
  }

  lemma ScanNegative(s: string)
    requires s != [] && AllDigits(s) && Value(s) <= MAX_INT64 + 1
    ensures ScanInt("-" + s) == 0 - Value(s)
  {
    hide Value;
    assert ("-" + s)[1..] == s;
  }

  /** Scanning undoes printing, for every int64. */
  lemma ScanPrinted(n: int)
    requires -0x8000_0000_0000_0000 <= n <= 0x7fff_ffff_ffff_ffff
    ensures ScanInt(PrintInt(n)) == n
    ensures ':' !in PrintInt(n) && '.' !in PrintInt(n)
  {
    hide ScanInt, Value, PrintNat;
    if n < 0 {
      PrintedValue(-n);
      ScanNegative(PrintNat(-n));
    } else {
      PrintedValue(n);
      ScanDigits(PrintNat(n));
    }
  }

  // ---------------------------------------------------------------- what else may be scanned

  lemma {:induction false} LeadingDigitsStop(digits: string, rest: string)
    requires AllDigits(digits) && (rest == "" || !IsDigit(rest[0]))
    ensures LeadingDigits(digits + rest) == digits
  {
    if digits != [] {
      assert (digits + rest)[1..] == digits[1..] + rest;
      LeadingDigitsStop(digits[1..], rest);
      assert digits == [digits[0]] + digits[1..];
    } else {
      assert digits + rest == rest;
    }
  }

  /** A number is read up to the first other character; one too large for an int64 is no number. */
  lemma ScanStops(digits: string, rest: string)
    requires digits != "" && AllDigits(digits) && (rest == "" || !IsDigit(rest[0]))
    ensures ScanInt(digits + rest) == if Value(digits) <= 0x7fff_ffff_ffff_ffff then Value(digits) else 0
  {
    hide Value, LeadingDigits;
    LeadingDigitsStop(digits, rest);
    assert IsDigit((digits + rest)[0]);
  }

  /** The same after a sign. */
  lemma ScanSigned(sign: char, digits: string, rest: string)
    requires sign == '+' || sign == '-'
    requires digits != "" && AllDigits(digits) && (rest == "" || !IsDigit(rest[0]))
    ensures var v := if sign == '-' then 0 - Value(digits) else Value(digits);
            ScanInt([sign] + (digits + rest)) == if -0x8000_0000_0000_0000 <= v <= 0x7fff_ffff_ffff_ffff then v else 0
  {
    hide Value, LeadingDigits;
    LeadingDigitsStop(digits, rest);
    var s := [sign] + (digits + rest);
    assert s[0] == sign && s[1..] == digits + rest;
  }

  /** Where no digit follows the blanks and the sign, the result is zero. */
  lemma ScanNothing(s: string)
    requires s == "" || (!IsDigit(s[0]) && SkipBlanks(s) == s && s[0] != '+' && s[0] != '-')
    ensures ScanInt(s) == 0 && ScanInt("+" + s) == 0 && ScanInt("-" + s) == 0
  {
    assert ("+" + s)[1..] == s && ("-" + s)[1..] == s;
  }

  /** Blanks in front make no difference. */
  lemma ScanSkipsBlanks(c: char, s: string)
    requires c == ' ' || c == '\t' || c == '\r'
    ensures ScanInt([c] + s) == ScanInt(s)
  {
    assert ([c] + s)[1..] == s;
  }
}
