/** Decimal rendering of naturals, as template strings and `format!` print them. */
module Decimal {

  function Digit(d: nat): char
    requires d < 10
  {
    '0' + d as char
  }

  predicate IsDigit(c: char) {
    '0' <= c <= '9'
  }

  function Dec(n: nat): (r: string)
    ensures |r| >= 1
    ensures forall c :: c in r ==> IsDigit(c)
  {
    if n < 10 then [Digit(n)] else Dec(n / 10) + [Digit(n % 10)]
  }

  /** The number that a text of digits spells. */
  function Spelled(s: string): nat
    requires forall c :: c in s ==> IsDigit(c)
  {
    if s == "" then 0
    else
      var last := s[|s| - 1];
      assert last in s && IsDigit(last);
      10 * Spelled(s[..|s| - 1]) + (last as int - '0' as int)
  }

  lemma {:induction false} DecSpells(n: nat)
    ensures Spelled(Dec(n)) == n
  {
    if n < 10 {
      assert Dec(n)[..0] == "";
    } else {
      DecSpells(n / 10);
      assert Dec(n)[..|Dec(n)| - 1] == Dec(n / 10);
    }
  }

  lemma {:induction false} DecInjective(a: nat, b: nat)
    requires Dec(a) == Dec(b)
    ensures a == b
  {
    assert Dec(a)[|Dec(a)| - 1] == Digit(a % 10);
    assert Dec(b)[|Dec(b)| - 1] == Digit(b % 10);
    if a >= 10 && b >= 10 {
      assert Dec(a)[..|Dec(a)| - 1] == Dec(a / 10);
      assert Dec(b)[..|Dec(b)| - 1] == Dec(b / 10);
      DecInjective(a / 10, b / 10);
    }
  }

  /** A rendering that is a prefix of another one is the same number or drops digits. */
  lemma {:induction false} DecPrefix(a: nat, b: nat)
    requires Dec(a) <= Dec(b)
    ensures a == b || (b >= 10 && a <= b / 10)
  {
    if |Dec(a)| == |Dec(b)| {
      DecInjective(a, b);
    } else {
      assert b >= 10;
      assert Dec(b)[..|Dec(b)| - 1] == Dec(b / 10);
      assert Dec(a) <= Dec(b / 10);
      DecPrefix(a, b / 10);
    }
  }
}
