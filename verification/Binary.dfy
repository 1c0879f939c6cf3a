/** Numbers and their binary digits, most significant first. */
module Binary {

  function Digit(b: bool): nat { if b then 1 else 0 }

  function Value(digits: seq<bool>): nat
  {
    if digits == [] then 0 else 2 * Value(digits[..|digits| - 1]) + Digit(digits[|digits| - 1])
  }

  /** The n low-order digits of v. */
  function Digits(v: nat, n: nat): (digits: seq<bool>)
    ensures |digits| == n
  {
    if n == 0 then [] else Digits(v / 2, n - 1) + [v % 2 == 1]
  }

  function Power(n: nat): nat { if n == 0 then 1 else 2 * Power(n - 1) }

  lemma {:induction false} PowerAdd(m: nat, n: nat)
    ensures Power(m + n) == Power(m) * Power(n)
  {
    if n > 0 { PowerAdd(m, n - 1); }
  }

  lemma WidePowers()
    ensures Power(8) == 0x100 && Power(16) == 0x1_0000 && Power(32) == 0x1_0000_0000
  {
    PowerAdd(8, 8);
    PowerAdd(16, 16);
  }

  lemma {:induction false} ValueBelow(digits: seq<bool>)
    ensures Value(digits) < Power(|digits|)
  {
    if digits != [] { ValueBelow(digits[..|digits| - 1]); }
  }

  lemma {:induction false} DigitsOfValue(digits: seq<bool>)
    ensures Digits(Value(digits), |digits|) == digits
  {
    if digits != [] { DigitsOfValue(digits[..|digits| - 1]); }
  }

  lemma {:induction false} ValueOfDigits(v: nat, n: nat)
    requires v < Power(n)
    ensures Value(Digits(v, n)) == v
  {
    if n > 0 { ValueOfDigits(v / 2, n - 1); }
  }

  lemma ValueInRange(digits: seq<bool>)
    ensures |digits| == 4 ==> Value(digits) < 16
    ensures |digits| == 8 ==> Value(digits) < 256
  {
    ValueBelow(digits);
    assert Power(4) == 16;
    assert Power(8) == 256;
  }
}
