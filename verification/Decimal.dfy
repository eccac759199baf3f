/** Decimal text: printing a number, reading it back, and the range check of a 64-bit parse. */
module Decimal {
  import opened Basics

  predicate IsDigit(c: char) { '0' <= c <= '9' }

  predicate AllDigits(s: string) { forall i :: 0 <= i < |s| ==> IsDigit(s[i]) }

  function DigitValue(c: char): nat
    requires IsDigit(c)
  {
    (c - '0') as nat
  }

  /** The number that a digit string denotes; the empty string denotes zero. */
  function Value(s: string): nat
    requires AllDigits(s)
  {
    if s == "" then 0 else 10 * Value(s[..|s| - 1]) + DigitValue(s[|s| - 1])
  }

  function Pow10(k: nat): (p: nat)
    ensures p > 0
  {
    if k == 0 then 1 else 10 * Pow10(k - 1)
  }

  function Pow1024(k: nat): (m: nat)
    ensures m > 0
  {
    if k == 0 then 1 else 1024 * Pow1024(k - 1)
  }

  function DigitChar(d: nat): (c: char)
    requires d < 10
    ensures IsDigit(c) && DigitValue(c) == d
  {
    '0' + d as char
  }

  /** `strconv.Itoa` on a nonnegative number: its digits, without leading zeros. */
  function Print(n: nat): (s: string)
    ensures |s| > 0 && AllDigits(s) && Value(s) == n && (s[0] == '0' <==> n == 0) && (n == 0 ==> s == "0")
  {
    if n < 10 then
      var s := [DigitChar(n)];
      assert s[..0] == "";
      s
    else
      var head := Print(n / 10);
      var s := head + [DigitChar(n % 10)];
      assert s[..|s| - 1] == head;
      s
  }

  /** How many digits a number has. */
  lemma {:induction false} PrintLength(n: nat, k: nat)
    requires k > 0
    ensures |Print(n)| <= k <==> n < Pow10(k)
  {
    if n >= 10 {
      if k > 1 {
        PrintLength(n / 10, k - 1);
      } else {
        assert Pow10(1) == 10 * Pow10(0);
      }
    } else {
      assert Pow10(k) == 10 * Pow10(k - 1);
    }
  }

  function FormatInt(n: int): (s: string)
    ensures if n < 0 then |s| > 1 && s[0] == '-' && s[1] != '0' && AllDigits(s[1..]) else s == Print(n)
  {
    if n < 0 then "-" + Print(-n) else Print(n)
  }

  /** `strconv.ParseInt(s, 10, 64)`: an optional sign, at least one digit, digits only, within 64 bits. */
  function ParseInt64(s: string): Option<int64> {
    var signed := |s| > 0 && (s[0] == '+' || s[0] == '-');
    var digits := if signed then s[1..] else s;
    if digits == "" || !AllDigits(digits) then None
    else
      var n: int := if signed && s[0] == '-' then -(Value(digits) as int) else Value(digits);
      if MIN_INT64 <= n <= MAX_INT64 then Some(n) else None
  }

  /** Printing then parsing is the identity on 64-bit integers. */
  lemma ParseOfFormat(n: int64)
    ensures ParseInt64(FormatInt(n)) == Some(n)
  {
  }

  /** `s` is the digits `d` behind an optional sign, and denotes `n`. */
  predicate Denotes(s: string, d: string, n: int) {
    && d != "" && AllDigits(d)
    && ((Value(d) == n && (s == d || s == "+" + d)) || (Value(d) + n == 0 && s == "-" + d))
  }

  /** A text parses exactly when it is one or more digits behind an optional sign, and their value fits. */
  lemma ParseExact(s: string, n: int64)
    ensures ParseInt64(s) == Some(n) <==> exists d: string :: Denotes(s, d, n)
  {
    if ParseInt64(s) == Some(n) {
      var d := if s[0] == '+' || s[0] == '-' then s[1..] else s;
      assert s == d || s == [s[0]] + d;
      assert Denotes(s, d, n);
    }
    if d: string :| Denotes(s, d, n) {
      assert s != d ==> s[1..] == d;
    }
  }

  lemma ShiftDigit(v: nat, p: nat)
    ensures v * (10 * p) == 10 * (v * p)
  {
  }

  lemma {:induction false} ValueSplit(a: string, b: string)
    requires AllDigits(a) && AllDigits(b)
    ensures AllDigits(a + b) && Value(a + b) == Value(a) * Pow10(|b|) + Value(b)
  {
    if b == "" {
      assert a + b == a;
    } else {
      var init, last := b[..|b| - 1], DigitValue(b[|b| - 1]);
      ValueSplit(a, init);
      assert (a + b)[..|a + b| - 1] == a + init;
      var p := Pow10(|init|);
      ShiftDigit(Value(a), p);
      assert Pow10(|b|) == 10 * p;
    }
  }
}
