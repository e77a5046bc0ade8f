// Decimal notation of natural numbers, shared by the printers and parsers.
module Decimal {

  function Digit(d: nat): char
    requires d < 10
  {
    (d + 48) as char
  }

  predicate IsDigit(c: char) { '0' <= c <= '9' }

  function DigitValue(c: char): nat
    requires IsDigit(c)
  {
    c as int - 48
  }

  predicate IsNumber(s: string) {
    s != "" && forall i :: 0 <= i < |s| ==> IsDigit(s[i])
  }

  function Print(n: nat): string {
    if n < 10 then [Digit(n)] else Print(n / 10) + [Digit(n % 10)]
  }

  function Value(s: string): nat
    requires forall i :: 0 <= i < |s| ==> IsDigit(s[i])
  {
    if s == "" then 0 else 10 * Value(s[..|s| - 1]) + DigitValue(s[|s| - 1])
  }

  lemma {:induction false} PrintsBack(n: nat)
    ensures IsNumber(Print(n)) && Value(Print(n)) == n
    ensures n > 0 ==> Print(n)[0] != '0'
    ensures n == 0 ==> Print(n) == "0"
    decreases n
  {
    if n >= 10 {
      PrintsBack(n / 10);
      var s := Print(n);
      assert s[..|s| - 1] == Print(n / 10);
    } else {
      var s := Print(n);
      assert s[..|s| - 1] == "";
    }
  }

  /** A number without leading zeros is the print of its value. */
  lemma {:induction false} ReadsBack(s: string)
    requires IsNumber(s) && (|s| > 1 ==> s[0] != '0')
    ensures Print(Value(s)) == s
    decreases |s|
  {
    var front := s[..|s| - 1];
    if front == "" {
      assert Value(front) == 0;
      assert s == [s[0]];
    } else {
      assert forall i :: 0 <= i < |front| ==> front[i] == s[i];
      ReadsBack(front);
      assert front[0] == s[0] && s[0] != '0';
      ValuePositive(front);
      assert s == front + [s[|s| - 1]];
    }
  }

  lemma {:induction false} ValuePositive(s: string)
    requires IsNumber(s) && s[0] != '0'
    ensures Value(s) > 0
    decreases |s|
  {
    var front := s[..|s| - 1];
    if front == "" {
      assert Value(front) == 0;
    } else {
      assert forall i :: 0 <= i < |front| ==> front[i] == s[i];
      ValuePositive(front);
    }
  }
}
