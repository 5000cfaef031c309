/** Digit strings and the numbers they denote. */
module Digits {

  predicate IsDigit(c: char) {
    '0' <= c <= '9'
  }

  predicate AllDigits(s: string) {
    forall c :: c in s ==> IsDigit(c)
  }

  function DigitValue(c: char): nat
    requires IsDigit(c)
  {
    c as int - '0' as int
  }

  /** The number a digit string denotes, unbounded. */
  function Value(ds: string): nat
    requires AllDigits(ds)
  {
    if ds == "" then 0 else 10 * Value(ds[..|ds| - 1]) + DigitValue(ds[|ds| - 1])
  }

  /** Length of the digit run a string starts with. */
  function DigitRun(s: string): (k: nat)
    ensures k <= |s|
    ensures AllDigits(s[..k])
    ensures k < |s| ==> !IsDigit(s[k])
  {
    if s == "" || !IsDigit(s[0]) then 0
    else
      assert s[..1 + DigitRun(s[1..])] == [s[0]] + s[1..][..DigitRun(s[1..])];
      1 + DigitRun(s[1..])
  }

  function Decimal(n: nat): (ds: string)
    ensures ds != "" && AllDigits(ds)
  {
    if n < 10 then [('0' as int + n) as char]
    else Decimal(n / 10) + [('0' as int + n % 10) as char]
  }

  lemma {:induction false} ValueDecimal(n: nat)
    ensures Value(Decimal(n)) == n
  {
    var ds := Decimal(n);
    if n < 10 {
      assert ds[..|ds| - 1] == "";
    } else {
      assert ds[..|ds| - 1] == Decimal(n / 10);
      ValueDecimal(n / 10);
    }
  }

  /** A numeral without leading zeros. */
  predicate Plain(ds: string) {
    ds != "" && AllDigits(ds) && (ds[0] == '0' ==> ds == "0")
  }

  lemma {:induction false} DecimalPlain(n: nat)
    ensures Plain(Decimal(n))
    ensures Decimal(n)[0] == '0' <==> n == 0
  {
    if n >= 10 {
      DecimalPlain(n / 10);
    }
  }

  lemma {:induction false} DecimalValue(ds: string)
    requires ds != "" && AllDigits(ds)
    ensures |Decimal(Value(ds))| <= |ds|
    ensures Plain(ds) ==> Decimal(Value(ds)) == ds
    ensures Plain(ds) && ds != "0" ==> Value(ds) > 0
  {
    var init, last := ds[..|ds| - 1], ds[|ds| - 1];
    if init == "" {
      assert Value(ds) == DigitValue(last) by { assert Value(init) == 0; }
      assert ds == [last];
    } else {
      assert init[0] == ds[0];
      DecimalValue(init);
      var v, d := Value(init), DigitValue(last);
      assert Value(ds) == 10 * v + d;
      if v > 0 {
        assert (10 * v + d) / 10 == v && (10 * v + d) % 10 == d;
      }
    }
  }

  lemma {:induction false} DecimalMonotone(m: nat, n: nat)
    requires m <= n
    ensures |Decimal(m)| <= |Decimal(n)|
  {
    if m >= 10 {
      DecimalMonotone(m / 10, n / 10);
    }
  }

  lemma {:induction false} DigitRunOf(ds: string, rest: string)
    requires AllDigits(ds)
    requires rest == "" || !IsDigit(rest[0])
    ensures DigitRun(ds + rest) == |ds|
  {
    if ds == "" {
      assert ds + rest == rest;
    } else {
      assert (ds + rest)[1..] == ds[1..] + rest;
      DigitRunOf(ds[1..], rest);
    }
  }
}
