/*
 * What a scale driver's read_data returns (a package that provides
 * IScaleInfo): the product code, the price per kilogram, the total price
 * and the weight, each of them absent until a reply fills it in; and the
 * fixed-point fields the scales send them in.
 */
module Scales {
  import opened Common
  import opened Decimals

  datatype Package = Package(code: Option<int>, pricePerKg: Option<real>, totalPrice: Option<real>, weight: Option<real>)

  /** A package built from empty data: every field left at None. */
  const NoReading := Package(None, None, None, None)

  const Stx: char := '\U{02}'
  const Etx: char := '\U{03}'

  /** Prices come with two decimals, weights (in kilograms) with three. */
  const PricePrecision: nat := 2
  const QuantityPrecision: nat := 3

  /** A price field: its number divided by 10 ** PRICE_PRECISION. */
  function Hundredths(field: string): (r: Option<real>)
    ensures r.Some? <==> ParseDecimal(field).Some?
    ensures r.Some? ==> r.value * 100.0 == ParseDecimal(field).value
  {
    match ParseDecimal(field)
    case None => None
    case Some(v) => Some(v / 100.0)
  }

  /** A weight field: its number divided by 10 ** QUANTITY_PRECISION. */
  function Thousandths(field: string): (r: Option<real>)
    ensures r.Some? <==> ParseDecimal(field).Some?
    ensures r.Some? ==> r.value * 1000.0 == ParseDecimal(field).value
  {
    match ParseDecimal(field)
    case None => None
    case Some(v) => Some(v / 1000.0)
  }

  lemma PrecisionsAreThoseScales()
    ensures Pow10(PricePrecision) == 100 && Pow10(QuantityPrecision) == 1000
  {
    assert Pow10(3) == 10 * Pow10(2);
  }

  /** n written with w digits, zero-padded on the left. */
  function ZeroPad(n: nat, w: nat): string
  {
    PadLeft(NatToString(n), w, '0')
  }

  /** A zero-padded field of w digits reads back, as int() and as a decimal, as the number written. */
  lemma ZeroPaddedField(n: nat, w: nat)
    requires 1 <= w && n < Pow10(w)
    ensures |ZeroPad(n, w)| == w && AllDigits(ZeroPad(n, w))
    ensures ParseInt(ZeroPad(n, w)) == Some(n)
    ensures ParseDecimal(ZeroPad(n, w)) == Some(n as real)
  {
    NatToStringLength(n, w);
    var padded := ZeroPaddedDigits(n, w);
    ParseFormatZeroPadded(n, w);
    ParseDecimalDigits(padded);
  }

  /** Leading spaces in front of digits are stripped away before the digits are read. */
  lemma SpacePaddedField(z: nat, d: string)
    requires d != [] && AllDigits(d)
    ensures ParseDecimal(Fill(' ', z) + d) == Some(DigitsValue(d) as real)
  {
    hide DigitsValue, UnsignedDecimal, AllDigits;
    SpacesStripped(z, d);
    DigitsAreBare(d);
    SameStripSameDecimal(Fill(' ', z) + d, d);
    ParseDecimalDigits(d);
  }

  lemma {:induction false} SpacesStripped(z: nat, s: string)
    ensures LStrip(Fill(' ', z) + s) == LStrip(s)
    decreases z
  {
    hide LStrip, Fill;
    if z > 0 {
      var t := Fill(' ', z) + s;
      FillCons(' ', z);
      assert t == [' '] + (Fill(' ', z - 1) + s);
      assert t[1..] == Fill(' ', z - 1) + s;
      LStripSpace(t);
      SpacesStripped(z - 1, s);
    } else {
      assert Fill(' ', z) + s == s;
    }
  }

  lemma LStripSpace(s: string)
    requires s != [] && s[0] == ' '
    ensures LStrip(s) == LStrip(s[1..])
  {
  }

  lemma SameStripSameDecimal(x: string, y: string)
    requires LStrip(x) == LStrip(y)
    ensures ParseDecimal(x) == ParseDecimal(y)
  {
    hide UnsignedDecimal, LStrip, RStrip, IsSpace;
  }
}
