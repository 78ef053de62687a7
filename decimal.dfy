/*
 * Python's Decimal() constructor on the plain numerals the drivers read back
 * from the printers: an optional sign, digits and at most one point.
 */
module Decimals {
  import opened Common

  /**
   * Decimal(s) of a plain numeral: surrounding whitespace, an optional sign,
   * digits with at most one '.', at least one digit. Exponents, NaN,
   * Infinity and underscores are not modelled.
   */
  function ParseDecimal(s: string): Option<real>
  {
    var t := Strip(s);
    if t == [] then None
    else
      var v := UnsignedDecimal(if t[0] == '-' || t[0] == '+' then t[1..] else t);
      if v.None? then None else Some(if t[0] == '-' then -v.value else v.value)
  }

  /** The value of the digits whole '.' frac. */
  function PointValue(whole: string, frac: string): real
    requires AllDigits(whole) && AllDigits(frac)
  {
    DigitsValue(whole) as real + DigitsValue(frac) as real / Pow10(|frac|) as real
  }

  /** The numeral after the sign: digits, at most one '.', at least one digit in all. */
  function UnsignedDecimal(body: string): Option<real>
  {
    var parts := Split(body, '.');
    var whole := parts[0];
    var frac := if |parts| == 2 then parts[1] else [];
    if |parts| > 2 || !AllDigits(whole) || !AllDigits(frac) || whole + frac == [] then None
    else Some(PointValue(whole, frac))
  }

  /** A string with no space at either end is its own strip(). */
  lemma StripUnspaced(g: string)
    requires g != [] && !IsSpace(g[0]) && !IsSpace(g[|g| - 1])
    ensures Strip(g) == g
  {
    assert LStrip(g) == g;
  }

  /** Digits, '.', digits: the number they write. */
  lemma UnsignedDecimalOf(whole: string, frac: string)
    requires AllDigits(whole) && AllDigits(frac) && whole + frac != []
    ensures UnsignedDecimal(whole + "." + frac) ==
      Some(PointValue(whole, frac))
  {
    assert '.' !in whole && '.' !in frac;
    hide DigitsValue, Pow10, Split, AllDigits, UnsignedDecimal;
    assert whole + "." + frac == whole + ['.'] + frac;
    SplitAt(whole, frac, '.');
    SplitNone(frac, '.');
    UnsignedDecimalParts(whole + "." + frac, whole, frac);
  }

  lemma UnsignedDecimalParts(body: string, whole: string, frac: string)
    requires Split(body, '.') == [whole, frac]
    requires AllDigits(whole) && AllDigits(frac) && whole + frac != []
    ensures UnsignedDecimal(body) ==
      Some(PointValue(whole, frac))
  {
    hide PointValue, Split, AllDigits;
  }

  lemma ParseDecimalPlain(whole: string, frac: string)
    requires whole != [] && AllDigits(whole) && frac != [] && AllDigits(frac)
    ensures ParseDecimal(whole + "." + frac) ==
      Some(PointValue(whole, frac))
  {
    hide DigitsValue, UnsignedDecimal, Strip, Pow10;
    var g := whole + "." + frac;
    assert g[0] == whole[0] && g[|g| - 1] == frac[|frac| - 1];
    StripUnspaced(g);
    UnsignedDecimalOf(whole, frac);
  }

  /** Decimal() of a run of digits with no point is the integer they write. */
  lemma ParseDecimalDigits(d: string)
    requires d != [] && AllDigits(d)
    ensures ParseDecimal(d) == Some(DigitsValue(d) as real)
  {
    hide DigitsValue, PointValue, Strip, Split, Pow10, UnsignedDecimal, AllDigits;
    DigitsAreBare(d);
    UnsignedDecimalWhole(d);
    PointValueWhole(d);
  }

  /** Digits with nothing after the point are worth what they write. */
  lemma PointValueWhole(d: string)
    requires AllDigits(d)
    ensures PointValue(d, []) == DigitsValue(d) as real
  {
    assert DigitsValue([]) == 0 && Pow10(0) == 1;
  }

  /** A run of digits has no space to strip, no point to split at and no sign. */
  lemma DigitsAreBare(d: string)
    requires d != [] && AllDigits(d)
    ensures Strip(d) == d && Split(d, '.') == [d] && d[0] != '-' && d[0] != '+'
  {
    assert '.' !in d;
    assert !IsSpace(d[0]) && !IsSpace(d[|d| - 1]);
    StripUnspaced(d);
    SplitNone(d, '.');
  }

  lemma UnsignedDecimalWhole(d: string)
    requires Split(d, '.') == [d]
    requires d != [] && AllDigits(d)
    ensures UnsignedDecimal(d) == Some(PointValue(d, []))
  {
    assert AllDigits([]);
    hide PointValue, Split;
  }
}
