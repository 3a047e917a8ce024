/** Numbers written in decimal, as the program writes them into names and reads them back. */
module Decimal {

  predicate IsDigit(c: char) {
    '0' <= c <= '9'
  }

  predicate AllDigits(s: string) {
    forall k | 0 <= k < |s| :: IsDigit(s[k])
  }

  function Digit(d: nat): (c: char)
    requires d < 10
    ensures IsDigit(c)
  {
    '0' + d as char
  }

  function Value(c: char): (d: nat)
    requires IsDigit(c)
    ensures d < 10
  {
    (c - '0') as nat
  }

  function Render(n: nat): string {
    if n < 10 then [Digit(n)] else Render(n / 10) + [Digit(n % 10)]
  }

  /** Leading zeros are accepted and lost. */
  function Parse(s: string): nat
    requires AllDigits(s)
  {
    if s == [] then 0 else Parse(s[..|s| - 1]) * 10 + Value(s[|s| - 1])
  }

  /** The one way a number is written. */
  predicate Canonical(s: string) {
    AllDigits(s) && |s| > 0 && (|s| > 1 ==> s[0] != '0')
  }

  /** A rendered number is canonical and reads back as itself. */
  lemma {:induction false} ParseRender(n: nat)
    ensures Canonical(Render(n)) && Parse(Render(n)) == n
    ensures n > 0 ==> Render(n)[0] != '0'
  {
    if n >= 10 {
      ParseRender(n / 10);
      var s := Render(n);
      assert s[..|s| - 1] == Render(n / 10);
    }
  }

  /** A string of digits is what its value renders to iff it is canonical. */
  lemma {:induction false} RenderParse(s: string)
    requires AllDigits(s) && |s| > 0
    ensures Render(Parse(s)) == s <==> Canonical(s)
    ensures Canonical(s) && s != "0" ==> Parse(s) > 0
    decreases |s|
  {
    var front := s[..|s| - 1];
    ParseRender(Parse(s));
    if Canonical(s) && |s| > 1 {
      assert front != "0";
      RenderParse(front);
      assert s == front + [s[|s| - 1]];
      assert Parse(s) / 10 == Parse(front) && Parse(s) % 10 == Value(s[|s| - 1]);
    } else if |s| == 1 {
      assert front == [];
      assert s == [s[0]];
    }
  }

  lemma RenderInjective(m: nat, n: nat)
    requires Render(m) == Render(n)
    ensures m == n
  {
    ParseRender(m);
    ParseRender(n);
  }
}
