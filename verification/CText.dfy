/** What the C library does with text: white space, digits, and the scan and print of
    numbers in a base. */
module CText {

  predicate IsSpace(c: char) {
    c == ' ' || '\t' <= c <= '\r'
  }

  function SkipSpaces(s: string): string {
    if s != [] && IsSpace(s[0]) then SkipSpaces(s[1..]) else s
  }

  /** isspace in the C locale. */
  lemma SpaceMeaning(c: char)
    ensures IsSpace(c) <==> c in {' ', '\t', '\n', '\U{000b}', '\U{000c}', '\r'}
  {
  }

  /** The white space at the start is skipped, all of it and nothing else. */
  lemma {:induction false} SkipSpacesMeaning(s: string) returns (n: nat)
    ensures n <= |s| && SkipSpaces(s) == s[n..]
    ensures (forall i :: 0 <= i < n ==> IsSpace(s[i])) && (n < |s| ==> !IsSpace(s[n]))
  {
    if s != [] && IsSpace(s[0]) {
      var m := SkipSpacesMeaning(s[1..]);
      n := m + 1;
      assert s[1..][m..] == s[n..];
      assert forall i :: 0 < i < n ==> s[i] == s[1..][i - 1];
      assert n < |s| ==> s[n] == s[1..][m];
    } else {
      n := 0;
    }
  }

  // ---------------------------------------------------------------------
  // Digits

  const NO_DIGIT: nat := 99

  function DigitOf(c: char): nat {
    if '0' <= c <= '9' then c as int - '0' as int
    else if 'a' <= c <= 'f' then c as int - 'a' as int + 10
    else if 'A' <= c <= 'F' then c as int - 'A' as int + 10
    else NO_DIGIT
  }

  predicate IsDigit(c: char, base: nat) {
    DigitOf(c) < base
  }

  predicate AllDigits(s: string, base: nat) {
    forall i :: 0 <= i < |s| ==> IsDigit(s[i], base)
  }

  function ValueOf(s: string, base: nat): nat {
    if s == [] then 0 else base * ValueOf(s[..|s| - 1], base) + DigitOf(s[|s| - 1])
  }

  function Digit(v: nat): (c: char)
    requires v < 16
    ensures DigitOf(c) == v
  {
    if v < 10 then ('0' as int + v) as char else ('a' as int + v - 10) as char
  }

  lemma Shorter(n: nat, base: nat)
    requires 2 <= base <= n
    ensures 0 < n / base < n && n == base * (n / base) + n % base
  {
    var q, r := n / base, n % base;
    assert n == base * q + r && r < base;
    if q > 0 {
      Product(base - 2, q);
      assert base * q == 2 * q + (base - 2) * q;
    }
  }

  lemma Product(a: nat, b: nat)
    ensures a * b >= 0
  {
  }

  /** The digits of a number, "0" for zero and no zero in front of others. */
  function Numeral(n: nat, base: nat): (s: string)
    requires 2 <= base <= 16
    ensures s != [] && AllDigits(s, base)
    ensures s[0] == '0' <==> n == 0
    ensures n == 0 ==> s == "0"
  {
    if n < base then [Digit(n)]
    else
      Shorter(n, base);
      Numeral(n / base, base) + [Digit(n % base)]
  }

  lemma {:induction false} NumeralMeaning(n: nat, base: nat)
    requires 2 <= base <= 16
    ensures ValueOf(Numeral(n, base), base) == n
  {
    if n >= base {
      Shorter(n, base);
      NumeralMeaning(n / base, base);
      ValueSnoc(Numeral(n / base, base), Digit(n % base), base);
    } else {
      ValueSnoc([], Digit(n), base);
      assert [] + [Digit(n)] == [Digit(n)];
    }
  }

  lemma ValueSnoc(s: string, c: char, base: nat)
    ensures ValueOf(s + [c], base) == base * ValueOf(s, base) + DigitOf(c)
  {
    assert (s + [c])[..|s|] == s;
  }

  // ---------------------------------------------------------------------
  // Scanning

  datatype Scanned = Scanned(value: int, rest: string)

  predicate HasPrefix0x(s: string) {
    |s| >= 2 && s[0] == '0' && (s[1] == 'x' || s[1] == 'X')
  }

  /** The digits at the front, at most so many. */
  function DigitRun(s: string, base: nat, width: nat): (k: nat)
    ensures k <= |s| && k <= width && AllDigits(s[..k], base) && forall i :: 0 <= i < k ==> IsDigit(s[i], base)
    ensures k < |s| && k < width ==> !IsDigit(s[k], base)
  {
    if s == [] || width == 0 || !IsDigit(s[0], base) then 0
    else
      var k := DigitRun(s[1..], base, width - 1);
      assert s[..k + 1] == [s[0]] + s[1..][..k];
      k + 1
  }

  /** A run of digits that a different character, or the width, ends. */
  lemma RunOfDigits(ds: string, rest: string, base: nat, width: nat)
    requires AllDigits(ds, base) && |ds| <= width
    requires rest == [] || !IsDigit(rest[0], base) || |ds| == width
    ensures DigitRun(ds + rest, base, width) == |ds|
  {
    assert forall i :: 0 <= i < |ds| ==> IsDigit((ds + rest)[i], base);
    assert rest != [] ==> (ds + rest)[|ds|] == rest[0];
  }
}
