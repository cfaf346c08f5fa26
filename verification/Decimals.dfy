/** Decimal numbers as text, and how the device reads one out of JSON. */
module Decimals {
  import opened Bytes

  function Digits(n: nat): seq<byte> {
    if n < 10 then [0x30 + n] else Digits(n / 10) + [0x30 + n % 10]
  }

  function Value(s: seq<byte>): int {
    if s == [] then 0 else 10 * Value(s[..|s| - 1]) + (s[|s| - 1] as int - 0x30)
  }

  /** `n.to_string()` */
  function Decimal(n: int): seq<byte> {
    if n < 0 then [0x2D] + Digits(-n) else Digits(n)
  }

  lemma {:induction false} DigitsValue(n: nat)
    ensures Value(Digits(n)) == n && Digits(n) != [] && Digits(n)[0] != 0x2D
    decreases n
  {
    if n >= 10 {
      DigitsValue(n / 10);
      assert Digits(n)[..|Digits(n)| - 1] == Digits(n / 10);
    } else {
      assert Digits(n)[..0] == [];
    }
  }

  lemma DecimalInjective(m: int, n: int)
    requires Decimal(m) == Decimal(n)
    ensures m == n
  {
    DigitsValue(if m < 0 then -m else m);
    DigitsValue(if n < 0 then -n else n);
    if m < 0 && n < 0 {
      assert Decimal(m)[1..] == Digits(-m) && Decimal(n)[1..] == Digits(-n);
    }
  }

  // ---- Reading a number ----------------------------------------------------------

  predicate IsDigit(b: byte) { 0x30 <= b <= 0x39 }

  /** From the first digit on. */
  function SkipToDigit(s: seq<byte>): seq<byte> {
    if s == [] || IsDigit(s[0]) then s else SkipToDigit(s[1..])
  }

  /** The digits at the start. */
  function DigitRun(s: seq<byte>): seq<byte> {
    if s == [] || !IsDigit(s[0]) then [] else [s[0]] + DigitRun(s[1..])
  }

  /** `parse_u64_field` behind the key: the first digits, whatever stands before them, if they fit a u64. */
  function ParseU64(s: seq<byte>): Option<u64> {
    var digits := DigitRun(SkipToDigit(s));
    if digits == [] || !(0 <= Value(digits) < 0x1_0000_0000_0000_0000) then None else Some(Value(digits))
  }

  lemma {:induction false} DigitsAreDigits(n: nat)
    ensures forall i :: 0 <= i < |Digits(n)| ==> IsDigit(Digits(n)[i])
    decreases n
  {
    if n >= 10 { DigitsAreDigits(n / 10); }
  }

  lemma {:induction false} RunOfDigits(s: seq<byte>, rest: seq<byte>)
    requires forall i :: 0 <= i < |s| ==> IsDigit(s[i])
    requires rest == [] || !IsDigit(rest[0])
    ensures DigitRun(s + rest) == s
    decreases |s|
  {
    if s == [] {
      assert s + rest == rest;
    } else {
      assert (s + rest)[1..] == s[1..] + rest;
      RunOfDigits(s[1..], rest);
    }
  }

  lemma DigitsAreRead(m: nat, rest: seq<byte>)
    requires rest == [] || !IsDigit(rest[0])
    requires m < 0x1_0000_0000_0000_0000
    ensures ParseU64(Digits(m) + rest) == Some(m)
  {
    DigitsValue(m);
    DigitsAreDigits(m);
    RunOfDigits(Digits(m), rest);
    hide Digits, Value, DigitRun;
    assert (Digits(m) + rest)[0] == Digits(m)[0];
  }

  lemma MinusIsSkipped(s: seq<byte>)
    ensures ParseU64([0x2D] + s) == ParseU64(s)
  {
    assert ([0x2D] + s)[1..] == s;
    hide DigitRun, Value;
  }

  /** The sign of a number is not read. */
  lemma SignIsLost(n: int, rest: seq<byte>)
    requires rest == [] || !IsDigit(rest[0])
    requires -0x1_0000_0000_0000_0000 < n < 0x1_0000_0000_0000_0000
    ensures ParseU64(Decimal(n) + rest) == Some(if n < 0 then -n else n)
  {
    hide ParseU64, Digits;
    DigitsAreRead(if n < 0 then -n else n, rest);
    if n < 0 {
      MinusIsSkipped(Digits(-n) + rest);
      assert Decimal(n) + rest == [0x2D] + (Digits(-n) + rest);
    }
  }
}
