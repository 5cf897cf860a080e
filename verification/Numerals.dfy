/**
 Decimal numerals: rendering, reading, and the 64-bit integer parsers.

 A Go string is a sequence of bytes; here it is a `string` holding one `char` per byte.
 */
module Numerals {
  import opened Wrappers

  const UINT64_BOUND: nat := 0x1_0000_0000_0000_0000
  const INT64_BOUND: int := 0x8000_0000_0000_0000

  predicate IsDigit(c: char) {
    '0' <= c <= '9'
  }

  predicate AllDigits(s: string) {
    forall i | 0 <= i < |s| :: IsDigit(s[i])
  }

  /** The number a run of decimal digits denotes. The empty run denotes zero. */
  function Dec(s: string): nat
    requires AllDigits(s)
  {
    if s == "" then 0 else Dec(s[..|s| - 1]) * 10 + (s[|s| - 1] as int - '0' as int)
  }

  function Ten(k: nat): (t: nat)
    ensures 1 <= t
  {
    if k == 0 then 1 else 10 * Ten(k - 1)
  }

  function Digit(d: nat): (c: char)
    requires d < 10
    ensures IsDigit(c) && c as int - '0' as int == d
  {
    ('0' as int + d) as char
  }

  /** The shortest decimal rendering. */
  function Digits(n: nat): (s: string)
    ensures AllDigits(s) && s != "" && Dec(s) == n
    ensures n != 0 ==> s[0] != '0'
  {
    if n < 10 then
      assert Dec([Digit(n)]) == Dec("") * 10 + n by { assert [Digit(n)][..0] == ""; }
      [Digit(n)]
    else
      var s := Digits(n / 10) + [Digit(n % 10)];
      assert s[..|s| - 1] == Digits(n / 10);
      s
  }

  function IntText(i: int): (s: string)
    ensures s != "" && (s[0] == '-' <==> i < 0)
  {
    if i < 0 then "-" + Digits(-i) else Digits(i)
  }

  lemma {:induction false} DecPositive(s: string)
    requires AllDigits(s) && s != "" && s[0] != '0'
    ensures Dec(s) > 0
  {
    if |s| > 1 {
      DecPositive(s[..|s| - 1]);
    }
  }

  lemma {:induction false} DecLeadingZero(s: string)
    requires AllDigits(s)
    ensures AllDigits("0" + s) && Dec("0" + s) == Dec(s)
  {
    var z := "0" + s;
    if s == "" {
      assert z == "0" && z[..0] == "";
    } else {
      assert z[..|z| - 1] == "0" + s[..|s| - 1];
      DecLeadingZero(s[..|s| - 1]);
    }
  }

  /** A digit run without leading zeros is determined by the number it denotes. */
  lemma {:induction false} DecInjective(s: string, t: string)
    requires AllDigits(s) && AllDigits(t)
    requires s != "" ==> s[0] != '0'
    requires t != "" ==> t[0] != '0'
    requires Dec(s) == Dec(t)
    ensures s == t
  {
    if s == "" {
      if t != "" { DecPositive(t); }
    } else if t == "" {
      DecPositive(s);
    } else {
      var p, q := s[..|s| - 1], t[..|t| - 1];
      assert Dec(s) == Dec(p) * 10 + (s[|s| - 1] as int - '0' as int);
      assert Dec(t) == Dec(q) * 10 + (t[|t| - 1] as int - '0' as int);
      DecInjective(p, q);
      assert s == p + [s[|s| - 1]] && t == q + [t[|t| - 1]];
    }
  }

  lemma DigitsInjective(m: nat, n: nat)
    requires Digits(m) == Digits(n)
    ensures m == n
  {
    assert Dec(Digits(m)) == Dec(Digits(n));
  }

  /** Rendering stays short: a number below `Ten(k)` takes at most `k` digits. */
  lemma {:induction false} DigitsLength(n: nat, k: nat)
    requires 1 <= k && n < Ten(k)
    ensures |Digits(n)| <= k
  {
    assert Ten(1) == 10 * Ten(0);
    if n >= 10 {
      DigitsLength(n / 10, k - 1);
    }
  }

  /** strconv.ParseUint(s, 10, 64). */
  function ParseUint64(s: string): (r: Option<nat>)
    ensures r.Some? <==> s != "" && AllDigits(s) && Dec(s) < UINT64_BOUND
  {
    if s == "" || !AllDigits(s) || Dec(s) >= UINT64_BOUND then None else Some(Dec(s))
  }

  /** strconv.ParseInt(s, 10, 64): one optional sign, at least one digit, 64-bit range. */
  function ParseInt64(s: string): Option<int> {
    var signed := s != "" && (s[0] == '-' || s[0] == '+');
    var body := if signed then s[1..] else s;
    if body == "" || !AllDigits(body) then None
    else
      var value: int := if signed && s[0] == '-' then 0 - Dec(body) else Dec(body);
      if -INT64_BOUND <= value < INT64_BOUND then Some(value) else None
  }
}
