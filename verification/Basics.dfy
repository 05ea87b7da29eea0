// Option and Result types and the text operations the jobs apply to payment fields.
module Basics {

  datatype Option<+T> = None | Some(value: T)

  datatype Result<+T, +E> = Ok(value: T) | Err(error: E)

  function Max(a: int, b: int): int {
    if a < b then b else a
  }

  // Integer division that drops the fraction, as a cast from DOUBLE to BIGINT does.
  function TruncDiv(n: int, d: int): int
    requires d > 0
  {
    if n >= 0 then n / d else -((-n) / d)
  }

  /******* Text *******/

  function UpperChar(c: char): char {
    if 'a' <= c <= 'z' then (c as int - 32) as char else c
  }

  function LowerChar(c: char): char {
    if 'A' <= c <= 'Z' then (c as int + 32) as char else c
  }

  function Upper(s: string): string {
    seq(|s|, i requires 0 <= i < |s| => UpperChar(s[i]))
  }

  function Lower(s: string): string {
    seq(|s|, i requires 0 <= i < |s| => LowerChar(s[i]))
  }

  function TrimLeft(s: string): string {
    if s != [] && s[0] == ' ' then TrimLeft(s[1..]) else s
  }

  function TrimRight(s: string): string {
    if s != [] && s[|s| - 1] == ' ' then TrimRight(s[..|s| - 1]) else s
  }

  // SQL TRIM: spaces only, both ends.
  function Trim(s: string): string {
    TrimRight(TrimLeft(s))
  }

  predicate IsSpace(c: char) {
    c == ' ' || c == '\t' || c == '\n' || c == '\r' || c as int == 11 || c as int == 12
  }

  // Replaces every maximal run of white space by one underscore.
  function CollapseSpace(s: string): string {
    if s == [] then []
    else if !IsSpace(s[0]) then [s[0]] + CollapseSpace(s[1..])
    else if |s| > 1 && IsSpace(s[1]) then CollapseSpace(s[1..])
    else "_" + CollapseSpace(s[1..])
  }

  // Code-point order of VARCHAR values.
  predicate TextLess(a: string, b: string) {
    b != [] && (a == [] || a[0] < b[0] || (a[0] == b[0] && TextLess(a[1..], b[1..])))
  }

  lemma {:induction false} TextLessTotal(a: string, b: string)
    ensures TextLess(a, b) || a == b || TextLess(b, a)
    ensures !(TextLess(a, b) && TextLess(b, a))
    ensures !TextLess(a, a)
  {
    if a != [] {
      TextLessTotal(a[1..], a[1..]);
      if b != [] {
        TextLessTotal(a[1..], b[1..]);
        assert a[0] == b[0] && a[1..] == b[1..] ==> a == [a[0]] + a[1..] == [b[0]] + b[1..] == b;
      }
    }
  }

  // At the first place where they differ the smaller text has the smaller code point, or has ended.
  ghost predicate SmallerAt(a: string, b: string, n: nat) {
    n <= |a| && n < |b| && a[..n] == b[..n] && (n == |a| || a[n] as int < b[n] as int)
  }

  lemma {:induction false} TextLessSpec(a: string, b: string)
    ensures TextLess(a, b) <==> exists n: nat :: SmallerAt(a, b, n)
  {
    if a == [] || b == [] || a[0] != b[0] {
      assert a != [] && b != [] ==> forall n: nat :: 0 < n <= |a| && n < |b| ==> a[..n][0] != b[..n][0];
      if TextLess(a, b) {
        assert SmallerAt(a, b, 0);
      }
    } else {
      var s, t := a[1..], b[1..];
      TextLessSpec(s, t);
      forall n: nat | SmallerAt(s, t, n) ensures SmallerAt(a, b, n + 1) {
        assert a[..n + 1] == [a[0]] + s[..n] && b[..n + 1] == [b[0]] + t[..n];
      }
      forall n: nat | SmallerAt(a, b, n) ensures n > 0 && SmallerAt(s, t, n - 1) {
        assert s[..n - 1] == a[..n][1..] && t[..n - 1] == b[..n][1..];
      }
    }
  }

  lemma {:induction false} TextLessTransitive(a: string, b: string, c: string)
    requires TextLess(a, b) && TextLess(b, c)
    ensures TextLess(a, c)
  {
    if a != [] && a[0] == b[0] == c[0] {
      TextLessTransitive(a[1..], b[1..], c[1..]);
    }
  }

  /******* Decimal text *******/

  function Digits(n: nat): (s: string)
    ensures s != "" && forall c :: c in s ==> '0' <= c <= '9'
  {
    if n < 10 then [('0' as int + n) as char] else Digits(n / 10) + [('0' as int + n % 10) as char]
  }

  lemma {:induction false} DigitsInjective(n: nat, m: nat)
    requires Digits(n) == Digits(m)
    ensures n == m
  {
    var a, b := Digits(n), Digits(m);
    assert a[|a| - 1] == b[|b| - 1] && a[..|a| - 1] == b[..|b| - 1];
    if n >= 10 && m >= 10 {
      assert a[..|a| - 1] == Digits(n / 10) && b[..|b| - 1] == Digits(m / 10);
      DigitsInjective(n / 10, m / 10);
    }
  }

  lemma {:induction false} DigitsWidth(n: nat, width: nat)
    requires width >= 1 && n < PowerOfTen(width)
    ensures |Digits(n)| <= width
  {
    if n >= 10 {
      DigitsWidth(n / 10, width - 1);
    }
  }

  function PowerOfTen(e: nat): nat {
    if e == 0 then 1 else 10 * PowerOfTen(e - 1)
  }

  // Reads decimal text; leading zeros do not matter.
  function ParseDigits(s: string): int {
    if s == "" then 0 else ParseDigits(s[..|s| - 1]) * 10 + (s[|s| - 1] as int - '0' as int)
  }

  lemma {:induction false} DigitsReadBack(n: nat)
    ensures ParseDigits(Digits(n)) == n
  {
    var s := Digits(n);
    if n >= 10 {
      DigitsReadBack(n / 10);
      assert s[..|s| - 1] == Digits(n / 10);
    }
  }
}
