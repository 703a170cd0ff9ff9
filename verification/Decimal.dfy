/** Whole numbers in decimal: how JavaScript prints them and how `parseInt(..., 10)` reads them back. */
module Decimals {
  import Text

  predicate IsDigit(c: char) {
    '0' <= c <= '9'
  }

  predicate AllDigits(s: string) {
    forall i :: 0 <= i < |s| ==> IsDigit(s[i])
  }

  function Print(n: nat): (s: string)
    ensures s != [] && AllDigits(s)
  {
    if n < 10 then ['0' + n as char] else Print(n / 10) + ['0' + (n % 10) as char]
  }

  function Value(s: string): nat
    requires AllDigits(s)
  {
    if s == [] then 0 else 10 * Value(s[..|s| - 1]) + (s[|s| - 1] - '0') as nat
  }

  lemma {:induction false} PrintValue(n: nat)
    ensures Value(Print(n)) == n
  {
    if n >= 10 {
      PrintValue(n / 10);
      assert Print(n)[..|Print(n)| - 1] == Print(n / 10);
    }
  }

  /** The longest prefix of digits. */
  function Leading(s: string): (digits: string)
    ensures AllDigits(digits) && |digits| <= |s| && s[..|digits|] == digits
    ensures |digits| < |s| ==> !IsDigit(s[|digits|])
  {
    if s == [] || !IsDigit(s[0]) then []
    else
      var rest := Leading(s[1..]);
      assert s[..|rest| + 1] == [s[0]] + s[1..][..|rest|];
      [s[0]] + rest
  }

  lemma {:induction false} LeadingIs(digits: string, rest: string)
    requires AllDigits(digits) && (rest == [] || !IsDigit(rest[0]))
    ensures Leading(digits + rest) == digits
  {
    if digits == [] {
      assert digits + rest == rest;
    } else {
      LeadingIs(digits[1..], rest);
      assert (digits + rest)[1..] == digits[1..] + rest;
    }
  }

  function PrintInt(n: int): (s: string)
    ensures s != []
  {
    if n < 0 then ['-'] + Print(-n) else Print(n)
  }

  /** `Number.parseInt(s, 10) || 0`: white space and a sign may come first, anything may follow the digits. */
  function ParseInt(s: string): int {
    var t := Text.TrimStart(s);
    if t != [] && t[0] == '-' then -(Value(Leading(t[1..])) as int)
    else if t != [] && t[0] == '+' then Value(Leading(t[1..]))
    else Value(Leading(t))
  }

  lemma ParseIntPrint(n: int)
    ensures ParseInt(PrintInt(n)) == n
  {
    hide Print, Value, Leading;
    var digits := Print(if n < 0 then -n else n);
    PrintValue(if n < 0 then -n else n);
    LeadingIs(digits, []);
    assert digits + [] == digits;
    assert IsDigit(digits[0]);
    if n < 0 {
      assert PrintInt(n)[1..] == digits;
    }
  }

  lemma PrintIntPlain(n: int, c: char)
    requires !IsDigit(c) && c != '-'
    ensures c !in PrintInt(n)
  {
  }
}
