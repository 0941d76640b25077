/** Decimal printing and reading of machine integers, as strconv.Itoa, strconv.Atoi and %d do it. */
module Strconv {
  import opened Prelude

  const MIN64: int := -0x8000_0000_0000_0000
  const MAX64: int := 0x7FFF_FFFF_FFFF_FFFF
  const RANGE64: int := 0x1_0000_0000_0000_0000

  predicate Is64(x: int) {
    MIN64 <= x <= MAX64
  }

  function Digit(d: nat): char
    requires d < 10
  {
    '0' + d as char
  }

  predicate IsDigit(c: char) {
    '0' <= c <= '9'
  }

  function DigitValue(c: char): nat
    requires IsDigit(c)
  {
    c as int - '0' as int
  }

  function NatToString(n: nat): string {
    if n < 10 then [Digit(n)] else NatToString(n / 10) + [Digit(n % 10)]
  }

  function Itoa(n: int): string {
    if n < 0 then "-" + NatToString(-n) else NatToString(n)
  }

  predicate AllDigits(s: string) {
    forall i :: 0 <= i < |s| ==> IsDigit(s[i])
  }

  function NatValue(s: string): nat
    requires AllDigits(s)
  {
    if s == [] then 0 else 10 * NatValue(s[..|s| - 1]) + DigitValue(s[|s| - 1])
  }

  // An optional sign, at least one digit, nothing else, and a value that fits into 64 bits.
  function Atoi(s: string): Option<int> {
    var (sign, digits) :=
      if s != [] && s[0] == '-' then (-1, s[1..])
      else if s != [] && s[0] == '+' then (1, s[1..])
      else (1, s);
    if digits == [] || !AllDigits(digits) then None
    else if Is64(sign * NatValue(digits)) then Some(sign * NatValue(digits))
    else None
  }

  lemma {:induction false} NatRoundTrip(n: nat)
    ensures NatToString(n) != [] && AllDigits(NatToString(n)) && NatValue(NatToString(n)) == n
  {
    if n < 10 {
      assert NatToString(n)[..0] == [];
    } else {
      NatRoundTrip(n / 10);
      var s := NatToString(n / 10);
      assert (s + [Digit(n % 10)])[..|s|] == s;
    }
  }

  // Printing and reading back a 64-bit integer changes nothing.
  lemma RoundTrip(n: int)
    requires Is64(n)
    ensures Atoi(Itoa(n)) == Some(n)
  {
    if n < 0 {
      NatRoundTrip(-n);
      assert Itoa(n)[1..] == NatToString(-n);
    } else {
      NatRoundTrip(n);
      assert IsDigit(Itoa(n)[0]);
    }
  }

  // A further digit makes the number ten times as large and adds its own value.
  lemma DecimalValue(s: string, c: char)
    requires AllDigits(s) && '0' <= c <= '9'
    ensures AllDigits(s + [c]) && NatValue(s + [c]) == 10 * NatValue(s) + (c as int - '0' as int)
  {
    assert (s + [c])[..|s|] == s;
  }

  lemma DecimalExamples()
    ensures Itoa(0) == "0" && Itoa(-7) == "-7" && Itoa(42) == "42"
    ensures Atoi("") == None && Atoi("-") == None && Atoi("x") == None && Atoi("+5") == Some(5)
  {
  }

  // ---- Wrap-around ----

  function Wrap64(x: int): int {
    (x - MIN64) % RANGE64 + MIN64
  }

  lemma WrapIsIdentity(x: int)
    requires Is64(x)
    ensures Wrap64(x) == x
  {
  }

  lemma WrapShift(x: int, k: int)
    ensures Wrap64(x + k * RANGE64) == Wrap64(x)
  {
  }

  lemma WrapDiffers(x: int) returns (k: int)
    ensures Wrap64(x) == x + k * RANGE64
  {
    k := -((x - MIN64) / RANGE64);
  }

  // Intermediate results may wrap around without harm: only the final one has to fit.
  lemma WrapInside(o: int, a: int, l: int)
    ensures Wrap64(o - Wrap64(Wrap64(a) * l)) == Wrap64(o - a * l)
    ensures Wrap64(o + Wrap64(Wrap64(a) * l)) == Wrap64(o + a * l)
  {
    var k := WrapDiffers(a);
    assert Wrap64(a) * l == a * l + (k * l) * RANGE64;
    var j := WrapDiffers(Wrap64(a) * l);
    var i := k * l + j;
    assert Wrap64(Wrap64(a) * l) == a * l + i * RANGE64;
    WrapShift(o - a * l, -i);
    WrapShift(o + a * l, i);
  }

  lemma WrapBack(o: int, a: int, l: int)
    requires Is64(o - a * l)
    ensures Wrap64(o - Wrap64(Wrap64(a) * l)) == o - a * l
  {
    WrapInside(o, a, l);
    WrapIsIdentity(o - a * l);
  }

  lemma WrapOn(o: int, a: int, l: int)
    requires Is64(o + a * l)
    ensures Wrap64(o + Wrap64(Wrap64(a) * l)) == o + a * l
  {
    WrapInside(o, a, l);
    WrapIsIdentity(o + a * l);
  }
}
