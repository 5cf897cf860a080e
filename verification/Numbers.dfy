/**
 Exact number normalisation (lifecycle/value.go).

 A lexeme is described by its parts under the grammar of section 6 of RFC 8259; `Render` writes the
 lexeme. Its meaning is a signed coefficient times a power of ten, and `SameNumber` compares two of
 those exactly. `NormalizedNumber` works on the text alone.
 */
module Numbers {
  import opened Wrappers
  import opened Numerals

  // ---- the grammar and its meaning ----

  datatype Sign = NoSign | Plus | Minus

  datatype Exponent = Exponent(upper: bool, sign: Sign, digits: string)

  datatype Number = Number(negative: bool, integral: string, fraction: Option<string>, exponent: Option<Exponent>)

  predicate WellFormed(n: Number) {
    && n.integral != "" && AllDigits(n.integral) && (|n.integral| > 1 ==> n.integral[0] != '0')
    && (n.fraction.Some? ==> n.fraction.value != "" && AllDigits(n.fraction.value))
    && (n.exponent.Some? ==> n.exponent.value.digits != "" && AllDigits(n.exponent.value.digits))
  }

  function Fraction(n: Number): string {
    if n.fraction.Some? then n.fraction.value else ""
  }

  function Unsigned(n: Number): string {
    if n.fraction.Some? then n.integral + ['.'] + n.fraction.value else n.integral
  }

  function Mantissa(n: Number): string {
    if n.negative then ['-'] + Unsigned(n) else Unsigned(n)
  }

  function ExponentText(n: Number): string {
    match n.exponent
    case None => ""
    case Some(e) => if e.sign.NoSign? then e.digits else [if e.sign.Plus? then '+' else '-'] + e.digits
  }

  function Render(n: Number): string {
    match n.exponent
    case None => Mantissa(n)
    case Some(e) => Mantissa(n) + [if e.upper then 'E' else 'e'] + ExponentText(n)
  }

  /** All the digits of the mantissa, as the code concatenates them. */
  function AllOf(n: Number): (s: string)
    requires WellFormed(n)
    ensures s != "" && AllDigits(s)
  {
    n.integral + Fraction(n)
  }

  function Coefficient(n: Number): int
    requires WellFormed(n)
  {
    if n.negative then 0 - Dec(AllOf(n)) else Dec(AllOf(n))
  }

  function ExponentValue(n: Number): int
    requires WellFormed(n)
  {
    match n.exponent
    case None => 0
    case Some(e) => if e.sign.Minus? then 0 - Dec(e.digits) else Dec(e.digits)
  }

  /** The power of ten the coefficient is scaled by. */
  function Scale(n: Number): int
    requires WellFormed(n)
  {
    ExponentValue(n) - |Fraction(n)|
  }

  /** `c1 * 10^e1 == c2 * 10^e2`, compared over the integers at the smaller exponent. */
  predicate SameScaled(c1: int, e1: int, c2: int, e2: int) {
    if e1 >= e2 then c1 * Ten(e1 - e2) == c2 else c1 == c2 * Ten(e2 - e1)
  }

  predicate SameNumber(a: Number, b: Number)
    requires WellFormed(a) && WellFormed(b)
  {
    SameScaled(Coefficient(a), Scale(a), Coefficient(b), Scale(b))
  }

  /** The parser accepts the exponent, or never looks at it because the coefficient is zero. */
  predicate InRange(n: Number)
    requires WellFormed(n)
  {
    Coefficient(n) == 0 || -INT64_BOUND <= ExponentValue(n) < INT64_BOUND
  }

  // ---- exact comparison ----

  /** The unique pair denoting the same number whose coefficient ends in no zero. */
  function Strip(c: int, e: int): (int, int)
    decreases if c < 0 then -c else c
  {
    if c == 0 then (0, 0) else if c % 10 == 0 then Strip(c / 10, e + 1) else (c, e)
  }

  lemma {:induction false} TenAdd(a: nat, b: nat)
    ensures Ten(a + b) == Ten(a) * Ten(b)
  {
    if a > 0 {
      TenAdd(a - 1, b);
      Associate(10, Ten(a - 1), Ten(b));
    }
  }

  lemma Associate(x: int, y: int, z: int)
    ensures x * y * z == x * (y * z)
  {
  }

  lemma {:induction false} StripShift(c: int, e: int, k: nat)
    ensures Strip(c * Ten(k), e - k) == Strip(c, e)
  {
    if k > 0 && c != 0 {
      var t := Ten(k - 1);
      var p := c * t;
      assert c * Ten(k) == 10 * p by { Associate(c, 10, t); Associate(10, c, t); }
      assert p != 0 by { NonZero(c, t); }
      assert (10 * p) % 10 == 0 && (10 * p) / 10 == p;
      StripShift(c, e, k - 1);
    }
  }

  lemma NonZero(c: int, t: nat)
    requires c != 0 && t > 0
    ensures c * t != 0
  {
  }

  lemma {:induction false} StripUndo(c: int, e: int)
    requires c != 0
    ensures var (d, f) := Strip(c, e); d != 0 && f >= e && c == d * Ten(f - e)
    decreases if c < 0 then -c else c
  {
    if c % 10 == 0 {
      StripUndo(c / 10, e + 1);
      var (d, f) := Strip(c, e);
      var t := Ten(f - e - 1);
      assert c == 10 * (d * t);
      assert d * Ten(f - e) == 10 * (d * t) by { Associate(d, 10, t); Associate(10, d, t); }
    }
  }

  lemma SameScaledByStrip(c1: int, e1: int, c2: int, e2: int)
    ensures SameScaled(c1, e1, c2, e2) <==> Strip(c1, e1) == Strip(c2, e2)
  {
    if e1 >= e2 {
      SameScaledOrdered(c1, e1, c2, e2);
    } else {
      SameScaledOrdered(c2, e2, c1, e1);
    }
  }

  lemma SameScaledOrdered(c1: int, e1: int, c2: int, e2: int)
    requires e1 >= e2
    ensures c1 * Ten(e1 - e2) == c2 <==> Strip(c1, e1) == Strip(c2, e2)
  {
    var k := e1 - e2;
    StripShift(c1, e1, k);
    if Strip(c1, e1) == Strip(c2, e2) {
      if c1 != 0 {
        StripUndo(c1, e1);
      }
      if c2 != 0 {
        StripUndo(c2, e2);
      }
      if c1 != 0 && c2 != 0 {
        var (d, f) := Strip(c1, e1);
        TenAdd(f - e1, k);
        Associate(d, Ten(f - e1), Ten(k));
      }
    }
  }

  // ---- the library string operations the code uses ----

  function IndexEither(s: string, c: char, d: char): (i: int)
    ensures -1 <= i < |s|
    ensures i >= 0 ==> (s[i] == c || s[i] == d) && forall j | 0 <= j < i :: s[j] != c && s[j] != d
    ensures i < 0 ==> forall j | 0 <= j < |s| :: s[j] != c && s[j] != d
  {
    if s == "" then -1
    else if s[0] == c || s[0] == d then 0
    else
      var rest := IndexEither(s[1..], c, d);
      if rest < 0 then -1 else rest + 1
  }

  function TrimLeftZeros(s: string): (t: string)
    ensures |t| <= |s|
    ensures t != "" ==> t[0] != '0'
    ensures AllDigits(s) ==> AllDigits(t) && Dec(t) == Dec(s)
  {
    if s != "" && s[0] == '0' then
      assert s == "0" + s[1..];
      assert AllDigits(s) ==> Dec(s) == Dec(s[1..]) by { if AllDigits(s) { DecLeadingZero(s[1..]); } }
      TrimLeftZeros(s[1..])
    else s
  }

  function TrimRightZeros(s: string): (t: string)
    ensures |t| <= |s| && t == s[..|t|]
    ensures t != "" ==> t[|t| - 1] != '0'
    ensures AllDigits(s) ==> AllDigits(t)
  {
    if s != "" && s[|s| - 1] == '0' then TrimRightZeros(s[..|s| - 1]) else s
  }

  lemma {:induction false} TrimRightValue(s: string)
    requires AllDigits(s)
    ensures Dec(s) == Dec(TrimRightZeros(s)) * Ten(|s| - |TrimRightZeros(s)|)
  {
    if s != "" && s[|s| - 1] == '0' {
      var p := s[..|s| - 1];
      TrimRightValue(p);
      var d, t := Dec(TrimRightZeros(p)), Ten(|p| - |TrimRightZeros(p)|);
      assert Dec(s) == 10 * (d * t);
      Associate(d, 10, t);
      Associate(10, d, t);
    }
  }

  // ---- the normal form ----

  /** The code's split of a lexeme: the unsigned mantissa, its sign, and the exponent text. */
  datatype Split = Split(negative: bool, integral: string, fraction: string, exponent: string)

  function SplitLexeme(lexeme: string): Split {
    var cut := IndexEither(lexeme, 'e', 'E');
    var mantissa := if cut >= 0 then lexeme[..cut] else lexeme;
    var exponent := if cut >= 0 then lexeme[cut + 1..] else "";
    var negative := mantissa != "" && mantissa[0] == '-';
    var unsigned := if negative then mantissa[1..] else mantissa;
    var dot := IndexEither(unsigned, '.', '.');
    if dot >= 0 then Split(negative, unsigned[..dot], unsigned[dot + 1..], exponent)
    else Split(negative, unsigned, "", exponent)
  }

  /** normalizedNumber: sign, stripped coefficient, adjusted exponent; never the expanded number. */
  function NormalizedNumber(lexeme: string): string {
    NormalizedSplit(SplitLexeme(lexeme), lexeme)
  }

  function NormalizedSplit(split: Split, lexeme: string): string {
    var coefficient := TrimLeftZeros(split.integral + split.fraction);
    var digits := TrimRightZeros(coefficient);
    if digits == "" then "0"
    else
      match ParsedScale(split.exponent)
      case None => lexeme
      case Some(scale) => Spell(split.negative, digits, scale - (|split.fraction| - (|coefficient| - |digits|)))
  }

  /** The int64 the exponent text parses to; an absent exponent is zero. */
  function ParsedScale(exponent: string): Option<int> {
    if exponent == "" then Some(0) else ParseInt64(exponent)
  }

  function Spell(negative: bool, digits: string, adjusted: int): string {
    (if negative then ['-'] + digits else digits) + ['e'] + IntText(adjusted)
  }

  function StrippedDigits(n: Number): string
    requires WellFormed(n)
  {
    TrimRightZeros(TrimLeftZeros(AllOf(n)))
  }

  function AdjustedScale(n: Number): int
    requires WellFormed(n)
  {
    Scale(n) + |TrimLeftZeros(AllOf(n))| - |StrippedDigits(n)|
  }

  lemma StripText(s: string)
    requires AllDigits(s)
    ensures var c := TrimLeftZeros(s);
            var d := TrimRightZeros(c);
            && AllDigits(d)
            && (d == "" <==> Dec(s) == 0)
            && (d != "" ==> d[0] != '0' && d[|d| - 1] != '0' && Dec(d) > 0 && Dec(d) % 10 != 0)
            && Dec(s) == Dec(d) * Ten(|c| - |d|)
  {
    var c := TrimLeftZeros(s);
    TrimRightValue(c);
    if c != "" { StripDigits(c); }
  }

  lemma StripDigits(c: string)
    requires AllDigits(c) && c != "" && c[0] != '0'
    ensures var d := TrimRightZeros(c);
            && d != "" && AllDigits(d) && d[0] != '0' && d[|d| - 1] != '0'
            && Dec(d) > 0 && Dec(d) % 10 != 0 && Dec(c) > 0
  {
    DecPositive(c);
    TrimRightValue(c);
    var d := TrimRightZeros(c);
    assert d != "" by { assert Dec("") == 0; }
    assert d[0] == c[0];
    DecPositive(d);
  }

  lemma StripSigned(negative: bool, m: nat, d: nat, k: nat, e: int)
    requires m == d * Ten(k) && d % 10 != 0
    ensures Strip(if negative then 0 - m else m, e) == (if negative then 0 - d else d, e + k)
  {
    if negative {
      Negated(d, Ten(k));
      StripShift(0 - d, e + k, k);
    } else {
      StripShift(d, e + k, k);
    }
  }

  lemma Negated(d: nat, t: nat)
    ensures (0 - d) * t == 0 - d * t
    ensures d % 10 != 0 ==> (0 - d) % 10 != 0
  {
  }

  /** The stripped digits and the adjusted exponent denote the same number. */
  lemma StrippedExact(n: Number)
    requires WellFormed(n)
    ensures var d := StrippedDigits(n);
            && AllDigits(d)
            && (d == "" <==> Coefficient(n) == 0)
            && (d != "" ==> d[0] != '0' && d[|d| - 1] != '0' && Dec(d) > 0 && Dec(d) % 10 != 0)
            && Strip(Coefficient(n), Scale(n)) ==
               if d == "" then (0, 0) else (if n.negative then 0 - Dec(d) else Dec(d), AdjustedScale(n))
  {
    StripText(AllOf(n));
    if StrippedDigits(n) != "" { StrippedParts(n); }
  }

  lemma StrippedParts(n: Number)
    requires WellFormed(n) && StrippedDigits(n) != ""
    ensures Strip(Coefficient(n), Scale(n))
            == (if n.negative then 0 - Dec(StrippedDigits(n)) else Dec(StrippedDigits(n)), AdjustedScale(n))
  {
    var c, d := TrimLeftZeros(AllOf(n)), StrippedDigits(n);
    var k := |c| - |d|;
    StripText(AllOf(n));
    StripSigned(n.negative, Dec(AllOf(n)), Dec(d), k, Scale(n));
  }

  /** The parts of the lexeme the normal form spells. */
  function NormalParts(n: Number): (r: Number)
    requires WellFormed(n)
    ensures WellFormed(r)
  {
    StrippedExact(n);
    if Coefficient(n) == 0 then Number(false, "0", None, None)
    else if !InRange(n) then n
    else
      var a := AdjustedScale(n);
      Number(n.negative, StrippedDigits(n), None,
             Some(Exponent(false, if a < 0 then Minus else NoSign, Digits(if a < 0 then -a else a))))
  }

  lemma UnsignedChars(n: Number)
    requires WellFormed(n)
    ensures Unsigned(n) != "" && IsDigit(Unsigned(n)[0])
    ensures forall i | 0 <= i < |Unsigned(n)| :: Unsigned(n)[i] != 'e' && Unsigned(n)[i] != 'E'
    ensures IndexEither(Unsigned(n), '.', '.') == if n.fraction.Some? then |n.integral| else -1
  {
    var u := Unsigned(n);
    assert forall i | 0 <= i < |n.integral| :: u[i] == n.integral[i] && IsDigit(u[i]);
    if n.fraction.Some? {
      assert u[|n.integral|] == '.';
      assert forall i | |n.integral| < i < |u| :: u[i] == n.fraction.value[i - |n.integral| - 1];
    }
  }

  /** Where the marker of a rendered lexeme is, and what it separates. */
  lemma SplitAtMarker(n: Number)
    requires WellFormed(n)
    ensures var r, cut := Render(n), IndexEither(Render(n), 'e', 'E');
            && (cut >= 0 <==> n.exponent.Some?)
            && (if cut >= 0 then r[..cut] == Mantissa(n) && r[cut + 1..] == ExponentText(n)
                else r == Mantissa(n) && ExponentText(n) == "")
  {
    UnsignedChars(n);
    var m := Mantissa(n);
    assert forall i | 0 <= i < |m| :: m[i] != 'e' && m[i] != 'E';
    if n.exponent.Some? {
      Marked(m, if n.exponent.value.upper then 'E' else 'e', ExponentText(n));
    }
  }

  lemma Marked(m: string, c: char, t: string)
    requires (c == 'e' || c == 'E') && forall i | 0 <= i < |m| :: m[i] != 'e' && m[i] != 'E'
    ensures var r := m + [c] + t; IndexEither(r, 'e', 'E') == |m| && r[..|m|] == m && r[|m| + 1..] == t
  {
    var r := m + [c] + t;
    assert r[|m|] == c;
    assert forall i | 0 <= i < |m| :: r[i] == m[i];
  }

  /** Splitting the lexeme at the marker, the sign and the point recovers its parts. */
  lemma SplitRender(n: Number)
    requires WellFormed(n)
    ensures SplitLexeme(Render(n)) == Split(n.negative, n.integral, Fraction(n), ExponentText(n))
  {
    SplitAtMarker(n);
    SignOff(n);
    SplitAtPoint(n);
  }

  lemma SignOff(n: Number)
    requires WellFormed(n)
    ensures var m := Mantissa(n);
            m != "" && (m[0] == '-' <==> n.negative) && (if n.negative then m[1..] else m) == Unsigned(n)
  {
    UnsignedChars(n);
    assert n.negative ==> (['-'] + Unsigned(n))[1..] == Unsigned(n);
  }

  lemma SplitAtPoint(n: Number)
    requires WellFormed(n)
    ensures var u, dot := Unsigned(n), IndexEither(Unsigned(n), '.', '.');
            if dot >= 0 then u[..dot] == n.integral && u[dot + 1..] == Fraction(n)
            else u == n.integral && Fraction(n) == ""
  {
    UnsignedChars(n);
    if n.fraction.Some? { CutAround(n.integral, '.', n.fraction.value); }
  }

  lemma CutAround(before: string, c: char, after: string)
    ensures var s := before + [c] + after; s[..|before|] == before && s[|before| + 1..] == after
  {
  }

  lemma ParseExponent(n: Number)
    requires WellFormed(n)
    ensures var v := ExponentValue(n);
            ParsedScale(ExponentText(n)) == if -INT64_BOUND <= v < INT64_BOUND then Some(v) else None
  {
    if n.exponent.Some? {
      var e := n.exponent.value;
      var t := ExponentText(n);
      if e.sign.NoSign? {
        assert IsDigit(t[0]);
      } else {
        assert t[1..] == e.digits;
      }
    }
  }

  /** A lexeme's parts are determined by its text, up to the spelling of the exponent. */
  lemma RenderInjective(a: Number, b: Number)
    requires WellFormed(a) && WellFormed(b) && Render(a) == Render(b)
    ensures Coefficient(a) == Coefficient(b) && Scale(a) == Scale(b)
  {
    SplitRender(a);
    SplitRender(b);
    SameExponentText(a, b);
  }

  lemma SameExponentText(a: Number, b: Number)
    requires WellFormed(a) && WellFormed(b) && ExponentText(a) == ExponentText(b)
    ensures ExponentValue(a) == ExponentValue(b)
  {
    var t := ExponentText(a);
    ExponentByText(a);
    ExponentByText(b);
  }

  function TextValue(t: string): int {
    if t == "" then 0
    else if AllDigits(t) then Dec(t)
    else if !AllDigits(t[1..]) then 0
    else if t[0] == '-' then 0 - Dec(t[1..]) else Dec(t[1..])
  }

  lemma ExponentByText(n: Number)
    requires WellFormed(n)
    ensures ExponentValue(n) == TextValue(ExponentText(n))
  {
    if n.exponent.Some? && !n.exponent.value.sign.NoSign? {
      var t := ExponentText(n);
      assert !IsDigit(t[0]) && t[1..] == n.exponent.value.digits;
    }
  }

  /** On every lexeme of the grammar the code computes the text of `NormalParts`. */
  lemma NormalizedText(n: Number)
    requires WellFormed(n)
    ensures NormalizedNumber(Render(n)) == Render(NormalParts(n))
  {
    SplitRender(n);
    NormalizedSplitText(n);
  }

  lemma NormalizedSplitText(n: Number)
    requires WellFormed(n)
    ensures NormalizedSplit(Split(n.negative, n.integral, Fraction(n), ExponentText(n)), Render(n)) ==
            Render(NormalParts(n))
  {
    StrippedExact(n);
    if Coefficient(n) == 0 {
      ZeroRenders(n);
    } else if InRange(n) {
      SpelledSplit(n);
      RenderNormal(n);
    } else {
      ParseExponent(n);
      assert NormalParts(n) == n;
    }
  }

  lemma SpelledSplit(n: Number)
    requires WellFormed(n) && InRange(n) && Coefficient(n) != 0
    ensures NormalizedSplit(Split(n.negative, n.integral, Fraction(n), ExponentText(n)), Render(n)) ==
            Spell(n.negative, StrippedDigits(n), AdjustedScale(n))
  {
    StrippedExact(n);
    ParseExponent(n);
    var c, d := TrimLeftZeros(AllOf(n)), StrippedDigits(n);
    assert ExponentValue(n) - (|Fraction(n)| - (|c| - |d|)) == AdjustedScale(n);
  }

  lemma ZeroRenders(n: Number)
    requires WellFormed(n) && Coefficient(n) == 0
    ensures Render(NormalParts(n)) == "0"
  {
  }

  lemma RenderNormal(n: Number)
    requires WellFormed(n) && InRange(n) && Coefficient(n) != 0
    ensures Render(NormalParts(n)) == Spell(n.negative, StrippedDigits(n), AdjustedScale(n))
  {
    StrippedExact(n);
    var r, d := NormalParts(n), StrippedDigits(n);
    assert r.integral == d && r.fraction.None? && r.exponent.Some? && !r.exponent.value.upper;
    assert Mantissa(r) == if n.negative then ['-'] + d else d;
    assert ExponentText(r) == IntText(AdjustedScale(n));
  }

  // ---- exactness ----

  /** The normal form of every lexeme is a lexeme denoting the same number. */
  lemma NormalFormExact(n: Number)
    requires WellFormed(n)
    ensures WellFormed(NormalParts(n)) && SameNumber(NormalParts(n), n)
    ensures NormalizedNumber(Render(n)) == Render(NormalParts(n))
  {
    NormalizedText(n);
    StripNormalParts(n);
    SameScaledByStrip(Coefficient(NormalParts(n)), Scale(NormalParts(n)), Coefficient(n), Scale(n));
  }

  lemma StripNormalParts(n: Number)
    requires WellFormed(n)
    ensures var r := NormalParts(n); Strip(Coefficient(r), Scale(r)) == Strip(Coefficient(n), Scale(n))
  {
    var r := NormalParts(n);
    StrippedExact(n);
    if Coefficient(n) == 0 {
      ZeroParts();
    } else if InRange(n) {
      StripNormal(n);
    }
  }

  lemma StripNormal(n: Number)
    requires WellFormed(n) && InRange(n) && Coefficient(n) != 0
    ensures var r := NormalParts(n);
            && AllOf(r) == StrippedDigits(n) && Scale(r) == AdjustedScale(n)
            && Strip(Coefficient(r), Scale(r)) == (Coefficient(r), Scale(r))
  {
    StrippedExact(n);
    NormalPartsParts(n);
    StripFixed(n.negative, Dec(StrippedDigits(n)), AdjustedScale(n));
  }

  lemma NormalPartsParts(n: Number)
    requires WellFormed(n) && InRange(n) && Coefficient(n) != 0
    ensures var r := NormalParts(n);
            r.negative == n.negative && AllOf(r) == StrippedDigits(n) && Scale(r) == AdjustedScale(n)
  {
    var r := NormalParts(n);
    assert r.integral + "" == r.integral;
    assert ExponentValue(r) == AdjustedScale(n);
  }

  /** A coefficient that ends in no zero is already stripped. */
  lemma StripFixed(negative: bool, d: nat, e: int)
    requires d % 10 != 0
    ensures var signed := if negative then 0 - d else d; Strip(signed, e) == (signed, e)
  {
  }

  lemma ZeroParts()
    ensures var zero := Number(false, "0", None, None); AllOf(zero) == "0" && Coefficient(zero) == 0
    ensures TrimLeftZeros("0") == ""
  {
    assert "0"[..0] == "" && "0"[1..] == "";
  }

  lemma NormalPartsFixed(n: Number)
    requires WellFormed(n)
    ensures NormalParts(NormalParts(n)) == NormalParts(n)
  {
    var r := NormalParts(n);
    StrippedExact(n);
    if Coefficient(n) == 0 {
      ZeroParts();
    } else if InRange(n) {
      var d := StrippedDigits(n);
      assert AllOf(r) == d;
      assert TrimLeftZeros(d) == d && TrimRightZeros(d) == d;
    }
  }

  lemma NormalizationIdempotent(n: Number)
    requires WellFormed(n)
    ensures NormalizedNumber(NormalizedNumber(Render(n))) == NormalizedNumber(Render(n))
  {
    NormalizedText(n);
    NormalizedText(NormalParts(n));
    NormalPartsFixed(n);
  }

  /** Equal normal forms never confuse two numbers, whatever their exponents. */
  lemma EqualFormsEqualNumbers(a: Number, b: Number)
    requires WellFormed(a) && WellFormed(b)
    requires NormalizedNumber(Render(a)) == NormalizedNumber(Render(b))
    ensures SameNumber(a, b)
  {
    NormalizedText(a);
    NormalizedText(b);
    RenderInjective(NormalParts(a), NormalParts(b));
    StripNormalParts(a);
    StripNormalParts(b);
    SameScaledByStrip(Coefficient(a), Scale(a), Coefficient(b), Scale(b));
  }

  /** Two in-range lexemes normalise alike exactly when they denote the same number. */
  lemma NormalFormsDecideEquality(a: Number, b: Number)
    requires WellFormed(a) && WellFormed(b) && InRange(a) && InRange(b)
    ensures NormalizedNumber(Render(a)) == NormalizedNumber(Render(b)) <==> SameNumber(a, b)
  {
    if NormalizedNumber(Render(a)) == NormalizedNumber(Render(b)) {
      EqualFormsEqualNumbers(a, b);
    }
    if SameNumber(a, b) {
      NormalizedText(a);
      NormalizedText(b);
      SameNumberSameParts(a, b);
    }
  }

  lemma SameNumberSameParts(a: Number, b: Number)
    requires WellFormed(a) && WellFormed(b) && InRange(a) && InRange(b) && SameNumber(a, b)
    ensures NormalParts(a) == NormalParts(b)
  {
    SameScaledByStrip(Coefficient(a), Scale(a), Coefficient(b), Scale(b));
    StrippedExact(a);
    StrippedExact(b);
    if Coefficient(a) != 0 {
      DecInjective(StrippedDigits(a), StrippedDigits(b));
    }
  }

  /** Every zero, of either sign and any exponent, has the one form `0`; nothing else has it. */
  lemma ZerosCollapse(n: Number)
    requires WellFormed(n)
    ensures NormalizedNumber(Render(n)) == "0" <==> Coefficient(n) == 0
  {
    NormalizedText(n);
    if NormalizedNumber(Render(n)) == "0" {
      var zero := Number(false, "0", None, None);
      assert Render(zero) == "0";
      ZeroParts();
      RenderInjective(NormalParts(n), zero);
      StripNormalParts(n);
      StrippedExact(n);
    }
  }

  /** Past int64 a nonzero lexeme stands as its own normal form. */
  lemma BeyondRangeStands(n: Number)
    requires WellFormed(n) && !InRange(n)
    ensures NormalizedNumber(Render(n)) == Render(n)
  {
    NormalizedText(n);
  }

  /**
   What two lexemes of one number still need for equal normal forms: nothing when both exponents are within
   int64; the same text when neither is; and when one is, that the other is written as its normal form.
   */
  predicate FormsMeet(a: Number, b: Number)
    requires WellFormed(a) && WellFormed(b)
  {
    if InRange(a) && InRange(b) then true
    else if InRange(a) then Render(b) == Spell(a.negative, StrippedDigits(a), AdjustedScale(a))
    else if InRange(b) then Render(a) == Spell(b.negative, StrippedDigits(b), AdjustedScale(b))
    else Render(a) == Render(b)
  }

  /** Exactly when the code takes two lexemes for equal, over all exponents. */
  lemma FormsEqualExactly(a: Number, b: Number)
    requires WellFormed(a) && WellFormed(b)
    ensures NormalizedNumber(Render(a)) == NormalizedNumber(Render(b)) <==> SameNumber(a, b) && FormsMeet(a, b)
  {
    if NormalizedNumber(Render(a)) == NormalizedNumber(Render(b)) { EqualFormsEqualNumbers(a, b); }
    if SameNumber(a, b) {
      if InRange(a) && InRange(b) {
        NormalFormsDecideEquality(a, b);
      } else if InRange(a) {
        MeetsBeyond(a, b);
      } else if InRange(b) {
        SameNumberSymmetric(a, b);
        MeetsBeyond(b, a);
      } else {
        BeyondRangeStands(a);
        BeyondRangeStands(b);
      }
    }
  }

  lemma SameNumberSymmetric(a: Number, b: Number)
    requires WellFormed(a) && WellFormed(b) && SameNumber(a, b)
    ensures SameNumber(b, a)
  {
  }

  /** A lexeme within int64 and one beyond it, of one number. */
  lemma MeetsBeyond(a: Number, b: Number)
    requires WellFormed(a) && WellFormed(b) && SameNumber(a, b) && InRange(a) && !InRange(b)
    ensures NormalizedNumber(Render(a)) == Spell(a.negative, StrippedDigits(a), AdjustedScale(a))
    ensures NormalizedNumber(Render(b)) == Render(b)
  {
    SameNumberNonzero(a, b);
    NormalizedText(a);
    RenderNormal(a);
    BeyondRangeStands(b);
  }

  lemma SameNumberNonzero(a: Number, b: Number)
    requires WellFormed(a) && WellFormed(b) && SameNumber(a, b) && Coefficient(b) != 0
    ensures Coefficient(a) != 0
  {
    SameScaledByStrip(Coefficient(a), Scale(a), Coefficient(b), Scale(b));
    StripZeroOnly(Coefficient(b), Scale(b));
  }

  lemma {:induction false} StripZeroOnly(c: int, e: int)
    requires c != 0
    ensures Strip(c, e).0 != 0
    decreases if c < 0 then -c else c
  {
    if c % 10 == 0 { StripZeroOnly(c / 10, e + 1); }
  }

  /** The lexemes `0.1e-<e>` and `1e-<e>`. */
  function Tenth(e: nat): (n: Number)
    ensures WellFormed(n)
  {
    Number(false, "0", Some("1"), Some(Exponent(false, Minus, Digits(e))))
  }

  function Unit(e: nat): (n: Number)
    ensures WellFormed(n)
  {
    Number(false, "1", None, Some(Exponent(false, Minus, Digits(e))))
  }

  lemma OneStripped()
    ensures Dec("1") == 1 && Dec("01") == 1 && TrimLeftZeros("01") == "1" && TrimRightZeros("1") == "1"
  {
    assert "1"[..0] == "" && "01"[..1] == "0" && "0"[..0] == "" && "01"[1..] == "1";
  }

  lemma TenthMeaning(e: nat)
    ensures var n := Tenth(e);
            && AllOf(n) == "01" && Coefficient(n) == 1 && ExponentValue(n) == 0 - e
            && StrippedDigits(n) == "1" && AdjustedScale(n) == 0 - e - 1
  {
    assert "0" + "1" == "01";
    OneStripped();
  }

  lemma UnitMeaning(e: nat)
    ensures var n := Unit(e); Coefficient(n) == 1 && ExponentValue(n) == 0 - e
    ensures e > 0 ==> Render(Unit(e)) == Spell(false, "1", 0 - e)
  {
    assert "1" + "" == "1";
    OneStripped();
    if e > 0 { assert ExponentText(Unit(e)) == IntText(0 - e); }
  }

  lemma TenthForm(e: nat)
    requires InRange(Tenth(e))
    ensures NormalizedNumber(Render(Tenth(e))) == Spell(false, "1", 0 - e - 1)
  {
    TenthMeaning(e);
    NormalizedText(Tenth(e));
    RenderNormal(Tenth(e));
  }

  lemma TextsDiffer(e: nat)
    ensures Render(Tenth(e)) != Render(Unit(e + 1))
  {
    assert Mantissa(Tenth(e)) == "0" + ['.'] + "1" && Mantissa(Unit(e + 1)) == "1";
    assert Render(Tenth(e))[0] == '0' && Render(Unit(e + 1))[0] == '1';
  }

  lemma TenthMeetsUnit(e: nat)
    requires InRange(Tenth(e)) && !InRange(Unit(e + 1))
    ensures NormalizedNumber(Render(Tenth(e))) == NormalizedNumber(Render(Unit(e + 1)))
  {
    TenthForm(e);
    UnitMeaning(e + 1);
    BeyondRangeStands(Unit(e + 1));
  }

  /** `0.1e-9223372036854775808`, which parses, and `1e-9223372036854775809`, which does not, have one form. */
  lemma AcrossTheRange(e: nat)
    requires e == INT64_BOUND
    ensures InRange(Tenth(e)) && !InRange(Unit(e + 1)) && Render(Tenth(e)) != Render(Unit(e + 1))
    ensures NormalizedNumber(Render(Tenth(e))) == NormalizedNumber(Render(Unit(e + 1)))
  {
    TenthMeaning(e);
    UnitMeaning(e + 1);
    TenthMeetsUnit(e);
    TextsDiffer(e);
  }

  /** The lexeme `1e<big>` or `1E<big>`. */
  function PowerLexeme(upper: bool, big: nat): (n: Number)
    ensures WellFormed(n)
  {
    Number(false, "1", None, Some(Exponent(upper, NoSign, Digits(big))))
  }

  lemma PowerLexemeMeaning(upper: bool, big: nat)
    ensures var n := PowerLexeme(upper, big);
            Coefficient(n) == 1 && Scale(n) == big && |Render(n)| > 1 && Render(n)[1] == if upper then 'E' else 'e'
  {
    var n := PowerLexeme(upper, big);
    assert AllOf(n) == "1" && "1"[..0] == "";
    assert Mantissa(n) == "1";
  }

  /** Completeness fails there: for `big` from 2^63 on, `1e<big>` and `1E<big>` keep different forms. */
  lemma BeyondRangeIncomplete(big: nat)
    requires big >= INT64_BOUND
    ensures SameNumber(PowerLexeme(false, big), PowerLexeme(true, big))
    ensures NormalizedNumber(Render(PowerLexeme(false, big))) != NormalizedNumber(Render(PowerLexeme(true, big)))
  {
    var a, b := PowerLexeme(false, big), PowerLexeme(true, big);
    PowerLexemeMeaning(false, big);
    PowerLexemeMeaning(true, big);
    assert !InRange(a) && !InRange(b);
    BeyondRangeStands(a);
    BeyondRangeStands(b);
  }
}
