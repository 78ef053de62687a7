/*
 * Driver capabilities: the limits a printer puts on a string (length) or a
 * number (range), and the check of a value against them.
 */
module Capabilities {
  import opened Common

  /** A value handed to check_value: a str, a number (int or float), or anything else. */
  datatype Value = Str(s: string) | Number(x: real) | Other

  /** The constructor's arguments; None is an argument left out. */
  datatype Limits = Limits(
    minLen: Option<int>, maxLen: Option<int>,
    maxSize: Option<real>, minSize: Option<real>,
    digits: Option<int>, decimals: Option<real>)

  /** A constructed capability; min_size is stored as `min_size or 0`. */
  datatype Capability = Capability(
    minLen: Option<int>, maxLen: Option<int>,
    maxSize: Option<real>, minSize: real,
    digits: Option<int>, decimals: Option<real>)

  /** Python truth of an optional int: present and non-zero. */
  predicate IntTruthy(x: Option<int>) { x.Some? && x.value != 0 }

  /** Python truth of an optional number: present and non-zero. */
  predicate RealTruthy(x: Option<real>) { x.Some? && x.value != 0.0 }

  /**
   * 10.0 ** d leaves the float range (OverflowError) for every d of 309 or
   * more; the largest float is about 1.8e308.
   */
  predicate PowOverflows(d: real) { d >= 309.0 }

  /**
   * 10.0 ** d rounds to 0.0 for every d of -324 or less (the smallest float
   * is about 4.9e-324), so 1 / 10.0 ** d raises ZeroDivisionError.
   */
  predicate PowVanishes(d: real) { d <= -324.0 }

  /** The stored fields of a capability that was built. */
  function Stored(l: Limits): Capability
  {
    Capability(l.minLen, l.maxLen, l.maxSize,
               if RealTruthy(l.minSize) then l.minSize.value else 0.0,
               l.digits, l.decimals)
  }

  /**
   * Capability(...): the argument checks, then, with digits, the throw-away
   * bound 10.0 ** digits - 1 + (1 - 1 / 10.0 ** decimals), whose float
   * arithmetic can raise, then the stored fields.
   */
  function NewCapability(l: Limits): (r: Result<Capability>)
    ensures l.maxLen.Some? && l.maxSize.Some? && l.minSize.Some? && l.digits.Some? && RealTruthy(l.decimals)
      ==> r == Err(Raise(ValueError))
    ensures l.digits.Some? && l.maxSize.Some? ==> r == Err(Raise(ValueError))
    ensures l.digits.None? ==> r.Ok?
    ensures l.digits.Some? && l.maxSize.None? ==>
      (r == Err(Raise(OverflowError)) <==>
         (RealTruthy(l.decimals) && PowOverflows(l.decimals.value))
         || (!(RealTruthy(l.decimals) && PowVanishes(l.decimals.value)) && l.digits.value >= 309))
      && (r == Err(Raise(ZeroDivisionError)) <==> RealTruthy(l.decimals) && PowVanishes(l.decimals.value))
    ensures r.Err? ==> r.error in {Raise(ValueError), Raise(OverflowError), Raise(ZeroDivisionError)}
    ensures r.Err? && r.error == Raise(ValueError) ==> l.maxSize.Some?
    ensures r.Ok? ==> r.value.maxSize == l.maxSize
    ensures r.Ok? ==> r.value.minSize == if RealTruthy(l.minSize) then l.minSize.value else 0.0
    ensures r.Ok? ==> (r.value.minLen == l.minLen && r.value.maxLen == l.maxLen &&
                       r.value.digits == l.digits && r.value.decimals == l.decimals)
  {
    if l.maxLen.Some? && l.maxSize.Some? && l.minSize.Some? && l.digits.Some? && RealTruthy(l.decimals) then
      Err(Raise(ValueError))
    else if l.digits.Some? then
      if l.maxSize.Some? then Err(Raise(ValueError))
      else if RealTruthy(l.decimals) && PowOverflows(l.decimals.value) then Err(Raise(OverflowError))
      else if RealTruthy(l.decimals) && PowVanishes(l.decimals.value) then Err(Raise(ZeroDivisionError))
      else if l.digits.value >= 309 then Err(Raise(OverflowError))
      else Ok(Stored(l))
    else
      Ok(Stored(l))
  }

  /** check_value(value): Ok when the value is acceptable, CapabilityError otherwise. */
  function CheckValue(c: Capability, v: Value): (r: Result<Unit>)
    ensures r.Err? ==> r.error == Raise(CapabilityError)
  {
    if IntTruthy(c.maxLen) then
      if !v.Str? then Err(Raise(CapabilityError))
      else if |v.s| > c.maxLen.value then Err(Raise(CapabilityError))
      else if IntTruthy(c.minLen) && |v.s| < c.minLen.value then Err(Raise(CapabilityError))
      else Ok(Unit)
    else if !(RealTruthy(c.maxSize) && c.minSize != 0.0) then
      Ok(Unit)
    else if !v.Number? then Err(Raise(CapabilityError))
    else if v.x > c.maxSize.value then Err(Raise(CapabilityError))
    else if v.x < c.minSize then Err(Raise(CapabilityError))
    else Ok(Unit)
  }

  /** The string rule: with a max_len, exactly the strs within [min_len, max_len] pass. */
  lemma StringMode(c: Capability, v: Value)
    requires IntTruthy(c.maxLen)
    ensures CheckValue(c, v).Ok? <==>
      v.Str? && |v.s| <= c.maxLen.value && (IntTruthy(c.minLen) ==> |v.s| >= c.minLen.value)
  { }

  /** The number rule: with no max_len and both sizes non-zero, exactly the numbers in [min_size, max_size] pass. */
  lemma NumericMode(c: Capability, v: Value)
    requires !IntTruthy(c.maxLen) && RealTruthy(c.maxSize) && c.minSize != 0.0
    ensures CheckValue(c, v).Ok? <==> v.Number? && c.minSize <= v.x <= c.maxSize.value
  { }

  /** Without max_len, and unless both sizes are non-zero, every value passes. */
  lemma Unchecked(c: Capability, v: Value)
    requires !IntTruthy(c.maxLen) && !(RealTruthy(c.maxSize) && c.minSize != 0.0)
    ensures CheckValue(c, v) == Ok(Unit)
  { }

  /**
   * The bound derived from digits is overwritten by the max_size argument,
   * so a capability given only digits (and no max_len) accepts every value
   * once that bound's float arithmetic has not raised.
   */
  lemma DigitsNeverBound(l: Limits, v: Value)
    requires l.digits.Some? && l.maxSize.None? && !IntTruthy(l.maxLen)
    requires l.digits.value < 309
    requires RealTruthy(l.decimals) ==> -324.0 < l.decimals.value < 309.0
    ensures NewCapability(l).Ok?
    ensures CheckValue(NewCapability(l).value, v) == Ok(Unit)
  {
    Unchecked(NewCapability(l).value, v);
  }

  /** A min_size of zero (or none) switches the range check off, whatever max_size is. */
  lemma ZeroMinSizeNeverBounds(l: Limits, v: Value)
    requires !RealTruthy(l.minSize) && !IntTruthy(l.maxLen)
    requires NewCapability(l).Ok?
    ensures CheckValue(NewCapability(l).value, v) == Ok(Unit)
  { }
}
