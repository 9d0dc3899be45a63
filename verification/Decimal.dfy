/** Decimal output (operator<<) and atoi, section 7.20.1.2 of ISO C99. */
module Decimal {
  import opened CTypes

  predicate IsDigit(c: char) {
    '0' <= c <= '9'
  }

  function DigitChar(d: nat): char
    requires d < 10
  {
    '0' + d as char
  }

  function DigitValue(c: char): nat
    requires IsDigit(c)
  {
    c as nat - '0' as nat
  }

  function PrintNat(n: nat): string {
    if n < 10 then [DigitChar(n)] else PrintNat(n / 10) + [DigitChar(n % 10)]
  }

  function PrintInt(n: int): string {
    if n >= 0 then PrintNat(n) else "-" + PrintNat(-n)
  }

  /** The number spelled by the digits `s` starts with, after `acc` has been read. */
  function Digits(s: string, acc: nat): nat {
    if s == "" || !IsDigit(s[0]) then acc else Digits(s[1..], acc * 10 + DigitValue(s[0]))
  }

  predicate IsSpace(c: char) {
    c == ' ' || '\t' <= c <= '\r'
  }

  function SkipSpace(s: string): string {
    if s != "" && IsSpace(s[0]) then SkipSpace(s[1..]) else s
  }

  /** The number a text starts with, of whatever size. */
  function Number(text: string): int {
    var s := SkipSpace(text);
    var signed := s != "" && (s[0] == '-' || s[0] == '+');
    var magnitude: int := Digits(if signed then s[1..] else s, 0);
    if signed && s[0] == '-' then -magnitude else magnitude
  }

  /** atoi; None where the value does not fit an int, which the standard leaves undefined. */
  function Atoi(text: string): Option<int> {
    if -TWO_31 <= Number(text) < TWO_31 then Some(Number(text)) else None
  }

  predicate AllDigits(s: string) {
    forall i :: 0 <= i < |s| ==> IsDigit(s[i])
  }

  lemma {:induction false} PrintNatDigits(n: nat)
    ensures PrintNat(n) != "" && AllDigits(PrintNat(n))
  {
    if n >= 10 {
      PrintNatDigits(n / 10);
    }
  }

  lemma {:induction false} DigitsAppend(s: string, t: string, acc: nat)
    requires AllDigits(s)
    ensures Digits(s + t, acc) == Digits(t, Digits(s, acc))
  {
    if s == "" {
      assert s + t == t;
    } else {
      assert (s + t)[1..] == s[1..] + t;
      DigitsAppend(s[1..], t, acc * 10 + DigitValue(s[0]));
    }
  }

  lemma {:induction false} DigitsOfPrint(n: nat)
    ensures Digits(PrintNat(n), 0) == n
  {
    if n >= 10 {
      DigitsOfPrint(n / 10);
      PrintNatDigits(n / 10);
      DigitsAppend(PrintNat(n / 10), [DigitChar(n % 10)], 0);
    }
  }

  predicate AllSpace(s: string) {
    forall i :: 0 <= i < |s| ==> s[i] in {' ', '\t', '\n', 11 as char, 12 as char, '\r'}
  }

  lemma {:induction false} SkipsSpace(w: string, s: string)
    requires AllSpace(w) && (s == "" || !AllSpace(s[..1]))
    ensures SkipSpace(w + s) == s
  {
    if w == "" {
      assert w + s == s;
    } else {
      assert (w + s)[1..] == w[1..] + s;
      SkipsSpace(w[1..], s);
    }
  }

  /** What atoi reads: white space, perhaps a sign, the digits up to the first character that is none, and nothing behind. */
  lemma NumberReads(w: string, sign: string, n: nat, t: string)
    requires AllSpace(w) && sign in {"", "+", "-"} && (t == "" || !('0' <= t[0] <= '9'))
    ensures Number(w + sign + PrintNat(n) + t) == if sign == "-" then -(n as int) else n
  {
    hide PrintNat, SkipSpace, Digits;
    PrintNatDigits(n);
    DigitsOfPrint(n);
    DigitsAppend(PrintNat(n), t, 0);
    assert Digits(t, n) == n by { NoDigits(t, n); }
    var s := sign + PrintNat(n) + t;
    assert w + sign + PrintNat(n) + t == w + s;
    if sign == "" {
      assert s == PrintNat(n) + t && s[0] == PrintNat(n)[0];
    } else {
      assert s == sign + (PrintNat(n) + t) && s[0] == sign[0];
      assert s[1..] == PrintNat(n) + t;
    }
    assert s[..1][0] == s[0];
    SkipsSpace(w, s);
  }

  lemma NoDigits(t: string, acc: nat)
    requires t == "" || !('0' <= t[0] <= '9')
    ensures Digits(t, acc) == acc
  {
  }

  lemma NumberPrint(n: int)
    ensures Number(PrintInt(n)) == n
  {
    var m := if n >= 0 then n else -n;
    PrintNatDigits(m);
    DigitsOfPrint(m);
    if n < 0 {
      assert PrintInt(n)[1..] == PrintNat(m);
    }
  }

  /** atoi undoes printing exactly on the range of int. */
  lemma AtoiPrint(n: int)
    ensures Atoi(PrintInt(n)) == if -2147483648 <= n <= 2147483647 then Some(n) else None
  {
    NumberPrint(n);
  }
}
