/** Decimal numbers as text, written and read back. */
module Decimal {
  import opened Text

  function Digit(d: int): char
    requires 0 <= d < 10
  {
    ('0' as int + d) as char
  }

  predicate DigitsOnly(s: string) {
    forall i | 0 <= i < |s| :: '0' <= s[i] <= '9'
  }

  /** strconv.Itoa for numbers that are not negative. */
  function FormatNat(n: nat): (s: string)
    ensures s != "" && DigitsOnly(s)
  {
    if n < 10 then [Digit(n)] else FormatNat(n / 10) + [Digit(n % 10)]
  }

  function Format(n: int): string {
    if n < 0 then "-" + FormatNat(-n) else FormatNat(n)
  }

  function Value(s: string): nat
    requires DigitsOnly(s)
  {
    if s == "" then 0
    else 10 * Value(s[..|s| - 1]) + (s[|s| - 1] as int - '0' as int)
  }

  /** strconv.Atoi: an optional sign and digits. */
  function Parse(s: string): Option<int> {
    if s != "" && DigitsOnly(s) then Some(Value(s))
    else if |s| > 1 && (s[0] == '-' || s[0] == '+') && DigitsOnly(s[1..]) then
      var v: int := Value(s[1..]);
      Some(if s[0] == '-' then -v else v)
    else None
  }

  lemma {:induction false} ValueFormat(n: nat)
    ensures Value(FormatNat(n)) == n
  {
    var s := FormatNat(n);
    if n >= 10 {
      ValueFormat(n / 10);
      assert s[..|s| - 1] == FormatNat(n / 10);
    }
  }

  /** Reading a written number gives the number. */
  lemma ParseFormat(n: int)
    ensures Parse(Format(n)) == Some(n)
    ensures forall c | c in Format(n) :: c == '-' || '0' <= c <= '9'
  {
    if n < 0 {
      ValueFormat(-n);
      var s := Format(n);
      assert s[0] == '-';
      assert s[1..] == FormatNat(-n);
    } else {
      ValueFormat(n);
    }
  }

  lemma FormatChars(n: int)
    ensures Format(n) != "" && (n >= 0 ==> '-' !in Format(n))
  {
  }

  /** A number is written digit by digit, the last digit last, with a minus sign if it is negative. */
  lemma FormatIs(n: nat, d: nat)
    requires d < 10
    ensures n > 0 ==> Format(10 * n + d) == Format(n) + ["0123456789"[d]]
    ensures Format(d) == ["0123456789"[d]]
    ensures n > 0 ==> var m: int := n; Format(-m) == "-" + Format(n)
  {
    assert (10 * n + d) / 10 == n && (10 * n + d) % 10 == d;
    assert forall k | 0 <= k < 10 :: "0123456789"[k] as int == 48 + k;
  }
}
