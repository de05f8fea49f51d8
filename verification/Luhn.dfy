/** The Luhn check on card numbers (Annex B of ISO/IEC 7812-1). */
module Luhn {
  import opened Decimal

  const LENGTH: nat := 16

  /** What a character contributes at distance `i` from the right end. */
  function Term(c: char, i: nat): int {
    var digit := c as int - 48;
    if i % 2 == 0 then digit else if 2 * digit > 9 then 2 * digit - 9 else 2 * digit
  }

  function LuhnTotal(number: string): int {
    if number == [] then 0 else Term(number[0], |number| - 1) + LuhnTotal(number[1..])
  }

  /** `str.isdigit` on the whole text; which characters it takes is a parameter. */
  predicate IsDigits(number: string, isDigit: char -> bool) {
    number != [] && forall i | 0 <= i < |number| :: isDigit(number[i])
  }

  predicate Accepts(number: string, isDigit: char -> bool) {
    IsDigits(number, isDigit) && |number| == LENGTH && LuhnTotal(number) % 10 == 0
  }

  /** `_luhn_valid`. */
  method LuhnValid(number: string, isDigit: char -> bool) returns (valid: bool)
    ensures valid == Accepts(number, isDigit)
  {
    if !IsDigits(number, isDigit) || |number| != LENGTH {
      return false;
    }
    var total := 0;
    for i := 0 to |number|
      invariant total == LuhnTotal(number[|number| - i..])
    {
      var digit := number[|number| - 1 - i] as int - 48;
      if i % 2 == 1 {
        digit := digit * 2;
        if digit > 9 {
          digit := digit - 9;
        }
      }
      assert number[|number| - 1 - i..][1..] == number[|number| - i..];
      total := total + digit;
    }
    assert number[0..] == number;
    valid := total % 10 == 0;
  }

  // ----- what the check detects, on decimal digits -----

  ghost predicate TakesDecimals(isDigit: char -> bool) {
    forall c: char | IsDigit(c) :: isDigit(c)
  }

  lemma {:induction false} TotalUpdate(number: string, k: nat, c: char)
    requires k < |number|
    ensures LuhnTotal(number[k := c])
         == LuhnTotal(number) - Term(number[k], |number| - 1 - k) + Term(c, |number| - 1 - k)
  {
    if k == 0 {
      assert number[0 := c][1..] == number[1..];
    } else {
      assert number[k := c][1..] == number[1..][k - 1 := c];
      TotalUpdate(number[1..], k - 1, c);
    }
  }

  /** At one position different digits contribute differently modulo 10. */
  lemma TermsDiffer(a: char, b: char, i: nat)
    requires IsDigit(a) && IsDigit(b) && a != b
    ensures (Term(a, i) - Term(b, i)) % 10 != 0
  {
  }

  /** Changing any one digit of an accepted number makes it refused. */
  lemma SingleDigitChange(number: string, k: nat, c: char, isDigit: char -> bool)
    requires AllDigits(number) && IsDigit(c) && k < |number| && c != number[k]
    requires Accepts(number, isDigit)
    ensures !Accepts(number[k := c], isDigit)
  {
    hide LuhnTotal, Term;
    var i := |number| - 1 - k;
    TotalUpdate(number, k, c);
    TermsDiffer(c, number[k], i);
    SameRemainder(LuhnTotal(number), Term(c, i) - Term(number[k], i));
  }

  function SwapAt(number: string, k: nat): string
    requires k + 1 < |number|
  {
    number[k := number[k + 1]][k + 1 := number[k]]
  }

  /** What swapping two neighbours changes in the total. */
  lemma SwapDifference(a: char, b: char, i: nat)
    requires IsDigit(a) && IsDigit(b) && a != b
    ensures (Term(b, i + 1) + Term(a, i) - Term(a, i + 1) - Term(b, i)) % 10 == 0
       <==> (a == '0' && b == '9') || (a == '9' && b == '0')
  {
  }

  /** Swapping two unequal neighbours goes unnoticed only for 0 and 9. */
  lemma AdjacentSwap(number: string, k: nat, isDigit: char -> bool)
    requires AllDigits(number) && TakesDecimals(isDigit) && k + 1 < |number| && number[k] != number[k + 1]
    requires Accepts(number, isDigit)
    ensures Accepts(SwapAt(number, k), isDigit) <==> {number[k], number[k + 1]} == {'0', '9'}
  {
    hide LuhnTotal, Term;
    var a, b, i := number[k], number[k + 1], |number| - 2 - k;
    TotalUpdate(number, k, b);
    TotalUpdate(number[k := b], k + 1, a);
    SwapDifference(a, b, i);
    SameRemainder(LuhnTotal(number), Term(b, i + 1) + Term(a, i) - Term(a, i + 1) - Term(b, i));
    assert {a, b} == {'0', '9'} <==> (a == '0' && b == '9') || (a == '9' && b == '0') by {
      assert a in {a, b} && b in {a, b} && '0' in {'0', '9'} && '9' in {'0', '9'};
    }
  }

  lemma SameRemainder(x: int, d: int)
    requires x % 10 == 0
    ensures (x + d) % 10 == 0 <==> d % 10 == 0
  {
  }

  /** The weights: the total of two digits is the right one as it is, and the sum
      of the digits of twice the left one; more digits to the left add up in the
      same way. */
  lemma {:induction false} TotalConcat(a: string, b: string)
    requires |b| % 2 == 0
    ensures LuhnTotal(a + b) == LuhnTotal(a) + LuhnTotal(b)
  {
    if a == "" {
      assert a + b == b;
    } else {
      assert (a + b)[0] == a[0] && (a + b)[1..] == a[1..] + b;
      TotalConcat(a[1..], b);
    }
  }

  lemma PairTotal(x: nat, y: nat)
    requires x < 10 && y < 10
    ensures LuhnTotal([DigitChar(x), DigitChar(y)]) == (2 * x) / 10 + (2 * x) % 10 + y
  {
    assert [DigitChar(x), DigitChar(y)][1..] == [DigitChar(y)];
    assert [DigitChar(y)][1..] == [];
    assert LuhnTotal([DigitChar(y)]) == y;
  }

  /** The digit that completes a prefix. */
  function CheckDigit(prefix: string): (c: char)
    ensures IsDigit(c)
  {
    DigitChar((-LuhnTotal(prefix + "0")) % 10)
  }

  /** Every 15-digit prefix has exactly one accepting check digit. */
  lemma OneCheckDigit(prefix: string, c: char, isDigit: char -> bool)
    requires AllDigits(prefix) && |prefix| == LENGTH - 1 && IsDigit(c) && TakesDecimals(isDigit)
    ensures Accepts(prefix + [c], isDigit) <==> c == CheckDigit(prefix)
  {
    var zero := prefix + "0";
    TotalUpdate(zero, LENGTH - 1, c);
    assert zero[LENGTH - 1 := c] == prefix + [c];
    var t, d := LuhnTotal(zero), DigitValue(c);
    assert LuhnTotal(prefix + [c]) == t + d;
    assert DigitChar(d) == c;
    Complement(t, d);
  }

  lemma Complement(t: int, d: nat)
    requires d < 10
    ensures (t + d) % 10 == 0 <==> d == (-t) % 10
  {
  }
}
