/** Decimal rendering of integers, and Python's `int(text)` on ASCII text:
    surrounding blanks, an optional sign, and digits that may be grouped by
    single underscores. */
module Decimal {
  import opened Wrappers

  predicate IsDigit(c: char) {
    '0' <= c <= '9'
  }

  function DigitValue(c: char): nat
    requires IsDigit(c)
  {
    c as int - '0' as int
  }

  function DigitChar(d: nat): (c: char)
    requires d < 10
    ensures IsDigit(c) && DigitValue(c) == d
  {
    ('0' as int + d) as char
  }

  predicate AllDigits(s: string) {
    forall i | 0 <= i < |s| :: IsDigit(s[i])
  }

  /** How `f"{n}"` prints a natural number. */
  function FromNat(n: nat): (s: string)
    ensures s != [] && AllDigits(s)
  {
    if n < 10 then [DigitChar(n)] else FromNat(n / 10) + [DigitChar(n % 10)]
  }

  /** The number a digit string denotes. */
  function ToNat(s: string): nat
    requires AllDigits(s)
  {
    if s == [] then 0 else 10 * ToNat(s[..|s| - 1]) + DigitValue(s[|s| - 1])
  }

  lemma {:induction false} NatRoundTrip(n: nat)
    ensures ToNat(FromNat(n)) == n
  {
    if n >= 10 {
      NatRoundTrip(n / 10);
      assert FromNat(n)[..|FromNat(n)| - 1] == FromNat(n / 10);
    }
  }

  lemma FromNatInjective(m: nat, n: nat)
    requires FromNat(m) == FromNat(n)
    ensures m == n
  {
    NatRoundTrip(m);
    NatRoundTrip(n);
  }

  /** How `f"{z}"` prints an integer. */
  function FromInt(z: int): string {
    if z < 0 then "-" + FromNat(-z) else FromNat(z)
  }

  predicate IsBlank(c: char) {
    c == ' ' || '\t' <= c <= '\r'
  }

  function StripLeft(s: string): string {
    if s != [] && IsBlank(s[0]) then StripLeft(s[1..]) else s
  }

  function StripRight(s: string): string {
    if s != [] && IsBlank(s[|s| - 1]) then StripRight(s[..|s| - 1]) else s
  }

  /** Digits grouped by single underscores, starting and ending with a digit. */
  predicate IsGrouped(s: string) {
    && s != []
    && IsDigit(s[0]) && IsDigit(s[|s| - 1])
    && (forall i | 0 <= i < |s| :: IsDigit(s[i]) || s[i] == '_')
    && (forall i | 0 <= i < |s| - 1 :: s[i] == '_' ==> IsDigit(s[i + 1]))
  }

  function DropUnderscores(s: string): (r: string)
    requires forall i | 0 <= i < |s| :: IsDigit(s[i]) || s[i] == '_'
    ensures AllDigits(r)
    ensures AllDigits(s) ==> r == s
  {
    if s == [] then []
    else if s[0] == '_' then DropUnderscores(s[1..])
    else [s[0]] + DropUnderscores(s[1..])
  }

  /** Python's `int(text)` on ASCII text; `None` is its `ValueError`. */
  function ParseInt(text: string): Option<int> {
    var s := StripRight(StripLeft(text));
    var signed := s != [] && (s[0] == '-' || s[0] == '+');
    var body := if signed then s[1..] else s;
    if !IsGrouped(body) then None
    else
      var n: int := ToNat(DropUnderscores(body));
      Some(if signed && s[0] == '-' then -n else n)
  }

  /** Printing an integer and reading it back is the identity. */
  lemma IntRoundTrip(z: int)
    ensures ParseInt(FromInt(z)) == Some(z)
  {
    var n: nat := if z < 0 then -z else z;
    NatRoundTrip(n);
    var s := FromInt(z);
    assert StripLeft(s) == s;
    assert StripRight(s) == s;
    assert z < 0 ==> s[1..] == FromNat(n);
    assert IsGrouped(FromNat(n));
  }
}
