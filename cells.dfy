/**
 * Table cells and `pd.to_numeric(..., errors="coerce")` on a single cell.
 *
 * A cell is what pandas holds after `read_csv`: a missing value (NaN/None),
 * a number, or a string. The string grammar of `to_numeric` is modelled as
 * a plain decimal: an optional sign, digits, an optional point and digits,
 * with at least one digit.
 */
module Cells {
  import opened Wrappers

  datatype Cell = Missing | Num(x: real) | Text(s: string)

  predicate IsDigit(c: char) {
    '0' <= c <= '9'
  }

  predicate AllDigits(s: string) {
    forall i :: 0 <= i < |s| ==> IsDigit(s[i])
  }

  predicate HasDigit(s: string) {
    exists i :: 0 <= i < |s| && IsDigit(s[i])
  }

  function DigitValue(c: char): nat
    requires IsDigit(c)
  {
    (c as int) - ('0' as int)
  }

  /** Value of a run of decimal digits, most significant first. */
  function DigitsValue(s: string): nat
    requires AllDigits(s)
  {
    if s == [] then 0 else 10 * DigitsValue(s[..|s| - 1]) + DigitValue(s[|s| - 1])
  }

  function Pow10(n: nat): (p: nat)
    ensures p >= 1
  {
    if n == 0 then 1 else 10 * Pow10(n - 1)
  }

  /** Index of the first `c` in `s`, or `|s|` when there is none. */
  function Find(s: string, c: char): (k: nat)
    ensures k <= |s|
    ensures k < |s| ==> s[k] == c
    ensures c !in s[..k]
  {
    if s == [] then 0
    else if s[0] == c then 0
    else
      var k := 1 + Find(s[1..], c);
      assert s[..k] == [s[0]] + s[1..][..k - 1];
      k
  }

  /** An unsigned decimal: `ddd`, `ddd.ddd`, `ddd.` or `.ddd`. */
  function ParseUnsigned(s: string): (r: Option<real>)
    ensures r.Some? ==> r.value >= 0.0
    ensures r.Some? ==> HasDigit(s)
  {
    var k := Find(s, '.');
    var whole := s[..k];
    var frac := if k < |s| then s[k + 1..] else [];
    if AllDigits(whole) && AllDigits(frac) && |whole| + |frac| > 0 then
      Some(DigitsValue(whole) as real + DigitsValue(frac) as real / Pow10(|frac|) as real)
    else
      None
  }

  /** The string grammar of `pd.to_numeric`: an optional `+` or `-`, then an unsigned decimal. */
  function ParseNum(s: string): (r: Option<real>)
    ensures r.Some? ==> HasDigit(s)
  {
    if s != [] && (s[0] == '-' || s[0] == '+') then
      match ParseUnsigned(s[1..])
      case None => None
      case Some(v) => Some(if s[0] == '-' then -v else v)
    else
      ParseUnsigned(s)
  }

  /** Only a leading minus sign makes a parsed number negative. */
  lemma {:induction false} ParseNumSign(s: string)
    ensures ParseNum(s).Some? && ParseNum(s).value < 0.0 ==> s[0] == '-'
  {
  }

  /**
   * Coercing one cell the way `to_numeric` does with errors coerced
   * (app.py:21): numbers and missing values pass
   * through, a string becomes its number or, when it does not parse, missing.
   * Never fails.
   */
  function ToNumeric(c: Cell): (r: Cell)
    ensures !r.Text?
    ensures !c.Text? ==> r == c
    ensures c.Text? ==> (r.Num? <==> ParseNum(c.s).Some?)
    ensures c.Text? && ParseNum(c.s).Some? ==> r == Num(ParseNum(c.s).value)
  {
    match c
    case Missing => Missing
    case Num(x) => Num(x)
    case Text(s) =>
      match ParseNum(s)
      case None => Missing
      case Some(v) => Num(v)
  }

  /** Coercing an already coerced cell changes nothing. */
  lemma ToNumericIdempotent(c: Cell)
    ensures ToNumeric(ToNumeric(c)) == ToNumeric(c)
  {
  }

  // ---------------------------------------------------------------------
  // Decimal rendering of integers: the strings the grammar must accept.

  function DigitChar(d: nat): (c: char)
    requires d < 10
    ensures IsDigit(c) && DigitValue(c) == d
  {
    ('0' as int + d) as char
  }

  /** Decimal digits of `n`, without leading zeros. */
  function NatDigits(n: nat): (s: string)
    ensures s != [] && AllDigits(s)
    decreases n
  {
    if n < 10 then [DigitChar(n)] else NatDigits(n / 10) + [DigitChar(n % 10)]
  }

  /** Python's `str(i)` for an integer. */
  function IntString(i: int): string {
    if i < 0 then "-" + NatDigits(-i) else NatDigits(i)
  }

  lemma {:induction false} NatDigitsValue(n: nat)
    ensures DigitsValue(NatDigits(n)) == n
    decreases n
  {
    if n >= 10 {
      var s := NatDigits(n);
      assert s[..|s| - 1] == NatDigits(n / 10);
      NatDigitsValue(n / 10);
    }
  }

  /** A plain run of digits parses as the number it spells. */
  lemma {:induction false} ParseDigits(d: string)
    requires d != [] && AllDigits(d)
    ensures ParseUnsigned(d) == Some(DigitsValue(d) as real)
  {
    var k := Find(d, '.');
    assert k < |d| ==> IsDigit(d[k]);
    assert k == |d|;
    assert d[..k] == d;
    var frac: string := [];
    assert DigitsValue(frac) == 0 && Pow10(|frac|) == 1;
  }

  /** Every integer written in decimal is coerced to that number. */
  lemma {:induction false} ParseIntString(i: int)
    ensures ParseNum(IntString(i)) == Some(i as real)
    ensures ToNumeric(Text(IntString(i))) == Num(i as real)
  {
    var n: nat := if i < 0 then -i else i;
    var d := NatDigits(n);
    NatDigitsValue(n);
    ParseDigits(d);
    if i < 0 {
      assert IntString(i)[1..] == d;
      assert IntString(i)[0] == '-';
    } else {
      assert IntString(i) == d;
      assert !(d[0] == '-' || d[0] == '+');
    }
  }

  /** The value of a decimal `w.f`: the whole part plus the fraction digits over their scale. */
  function DecimalValue(w: nat, f: string): (v: real)
    requires AllDigits(f)
    ensures w as real <= v < w as real + 1.0
  {
    FractionBelowOne(f);
    w as real + DigitsValue(f) as real / Pow10(|f|) as real
  }

  lemma {:induction false} DigitsBelowPow10(f: string)
    requires AllDigits(f)
    ensures DigitsValue(f) < Pow10(|f|)
    decreases |f|
  {
    if f != [] {
      DigitsBelowPow10(f[..|f| - 1]);
    }
  }

  lemma FractionBelowOne(f: string)
    requires AllDigits(f)
    ensures 0.0 <= DigitsValue(f) as real / Pow10(|f|) as real < 1.0
  {
    DigitsBelowPow10(f);
    var a := DigitsValue(f) as real;
    var b := Pow10(|f|) as real;
    assert 0.0 <= a < b;
    QuotientBelowOne(a, b);
  }

  lemma QuotientBelowOne(a: real, b: real)
    requires 0.0 <= a < b
    ensures 0.0 <= a / b < 1.0
  {
    var q := a / b;
    assert q * b == a;
  }

  /** A decimal `w.f`, with `w` written without leading zeros and `f` any digits, parses as its value. */
  lemma {:induction false} ParseDecimalString(w: nat, f: string)
    requires AllDigits(f)
    ensures ParseUnsigned(NatDigits(w) + "." + f) == Some(DecimalValue(w, f))
    ensures ToNumeric(Text(NatDigits(w) + "." + f)) == Num(DecimalValue(w, f))
  {
    var d := NatDigits(w);
    NatDigitsValue(w);
    PointAfterDigits(d, f);
    assert (d + "." + f)[0] == d[0] && IsDigit(d[0]);
  }

  /** In `d.f` with `d` all digits, the first point is the one after `d`. */
  lemma {:induction false} PointAfterDigits(d: string, f: string)
    requires AllDigits(d)
    ensures var s := d + "." + f;
      Find(s, '.') == |d| && s[..|d|] == d && s[|d| + 1..] == f
  {
    var s := d + "." + f;
    assert s[..|d| + 1][|d|] == '.';
    var k := Find(s, '.');
    assert k < |d| ==> s[k] == d[k] && IsDigit(d[k]);
    assert s[..|d|] == d;
    assert s[|d| + 1..] == f;
  }

  /** Signed decimals: `-w.f` coerces to the negated value and `+w.f` to the value. */
  lemma {:induction false} ParseSignedDecimal(sign: char, w: nat, f: string)
    requires sign == '-' || sign == '+'
    requires AllDigits(f)
    ensures ParseNum([sign] + (NatDigits(w) + "." + f)) ==
              Some(if sign == '-' then -DecimalValue(w, f) else DecimalValue(w, f))
    ensures ToNumeric(Text([sign] + (NatDigits(w) + "." + f))) ==
              Num(if sign == '-' then -DecimalValue(w, f) else DecimalValue(w, f))
  {
    var u, v := NatDigits(w) + "." + f, DecimalValue(w, f);
    ParseDecimalString(w, f);
    ParseSigned(sign, u, v);
  }

  lemma {:induction false} ParseSigned(sign: char, u: string, v: real)
    requires sign == '-' || sign == '+'
    requires ParseUnsigned(u) == Some(v)
    ensures ParseNum([sign] + u) == Some(if sign == '-' then -v else v)
    ensures ToNumeric(Text([sign] + u)) == Num(if sign == '-' then -v else v)
  {
    assert ([sign] + u)[1..] == u;
  }

  /**
   * The launch monitor's directional tokens (`"L4.5"`, `"R12"`) are not
   * numbers to `to_numeric`: they become missing.
   */
  lemma {:induction false} DirectionalTokenBecomesMissing(side: char, magnitude: string)
    requires side == 'L' || side == 'R'
    ensures ToNumeric(Text([side] + magnitude)) == Missing
  {
    var s := [side] + magnitude;
    var k := Find(s, '.');
    assert k > 0;
    assert s[..k][0] == side;
  }
}
