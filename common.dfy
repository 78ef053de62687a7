/*
 * Shared vocabulary of the model: bytes, Option/Result wrappers, the driver
 * exceptions, and the small pieces of Python string and number handling that
 * the drivers lean on (int() parsing, '%0Nd' / '%Ns' / '%04X' formatting,
 * strip() and clamped slicing).
 */
module Common {

  /** A byte on the wire. */
  type byte = x: int | 0 <= x < 256

  datatype Option<T> = None | Some(value: T)

  /** The exception classes raised by the core. */
  datatype ExcClass =
    | DriverError
    | PrinterOfflineError
    | CouponOpenError
    | CouponNotOpenError
    | AlreadyTotalized
    | InvalidValue
    | ItemAdditionError
    | CancelItemError
    | CouponTotalizeError
    | PaymentAdditionError
    | CloseCouponError
    | PendingReduceZ
    | PendingReadX
    | ReadXError
    | OutofPaperError
    | CommandParametersError
    | CommandError
    | InvalidState
    | CapabilityError
    | InvalidReply
    | HardwareFailure
    | AuthenticationFailure
    | ReduceZError
    | ValueError
    | TypeError
    | KeyError
    | IndexError
    | AssertionError
    | ZeroDivisionError
    | OverflowError
    | UnboundLocalError
    | StructError
    | AttributeError
    | InvalidOperation

  /** A raised exception: its class and, for driver errors, the device code it carries. */
  datatype Exception = Exception(cls: ExcClass, code: Option<int>)

  function Raise(cls: ExcClass): Exception { Exception(cls, None) }
  function RaiseCode(cls: ExcClass, code: int): Exception { Exception(cls, Some(code)) }

  /** A call that either returns a value or raises. */
  datatype Result<T> = Ok(value: T) | Err(error: Exception)

  /** A value returned by a call whose Python result is None. */
  datatype Unit = Unit

  // ---------------------------------------------------------------------
  // Characters

  /** str.isspace() of Python 3 (also the class matched by \s and skipped by int() and strip()). */
  predicate IsSpace(c: char)
  {
    ('\t' <= c <= '\r') || ('\U{1c}' <= c <= '\U{1f}') || c == ' ' || c == '\U{85}' || c == '\U{a0}'
    || c == '\U{1680}' || ('\U{2000}' <= c <= '\U{200a}') || c == '\U{2028}' || c == '\U{2029}'
    || c == '\U{202f}' || c == '\U{205f}' || c == '\U{3000}'
  }

  predicate IsDigit(c: char) { '0' <= c <= '9' }

  predicate AllDigits(s: string) { forall i :: 0 <= i < |s| ==> IsDigit(s[i]) }

  function DigitChar(d: int): (c: char)
    requires 0 <= d < 10
    ensures IsDigit(c) && c as int - '0' as int == d
  {
    ('0' as int + d) as char
  }

  /** Python slicing s[lo:hi] for non-negative bounds: clamped, never out of range. */
  function Slice<T>(s: seq<T>, lo: nat, hi: nat): (r: seq<T>)
    ensures |r| == if lo < hi && lo < |s| then (if hi <= |s| then hi else |s|) - lo else 0
  {
    if hi <= lo || |s| <= lo then [] else if hi <= |s| then s[lo..hi] else s[lo..]
  }

  /** [x] * n */
  function Fill<T>(x: T, n: nat): (r: seq<T>)
    ensures |r| == n
  {
    if n == 0 then [] else Fill(x, n - 1) + [x]
  }

  lemma {:induction false} FillIndex<T>(x: T, n: nat)
    ensures forall k :: 0 <= k < n ==> Fill(x, n)[k] == x
  {
    if n > 0 { FillIndex(x, n - 1); }
  }

  /** [x] * n is x followed by [x] * (n - 1). */
  lemma FillCons<T>(x: T, n: nat)
    requires n > 0
    ensures Fill(x, n) == [x] + Fill(x, n - 1)
  {
    FillIndex(x, n);
    FillIndex(x, n - 1);
  }

  /** Appending is associative (regrouping a log of bytes written in two steps). */
  lemma AppendAssoc<T>(a: seq<T>, b: seq<T>, c: seq<T>)
    ensures a + (b + c) == a + b + c
  {
  }

  /** s.lstrip() */
  function LStrip(s: string): (r: string)
    ensures |r| <= |s| && r == s[|s| - |r|..]
    ensures r == [] || !IsSpace(r[0])
  {
    if s != [] && IsSpace(s[0]) then LStrip(s[1..]) else s
  }

  /** s.rstrip() */
  function RStrip(s: string): (r: string)
    ensures |r| <= |s| && r == s[..|r|]
    ensures r == [] || !IsSpace(r[|r| - 1])
  {
    if s != [] && IsSpace(s[|s| - 1]) then RStrip(s[..|s| - 1]) else s
  }

  /** s.strip() */
  function Strip(s: string): string { RStrip(LStrip(s)) }

  /** s.strip(c) for a single character c */
  function StripChar(s: string, c: char): (r: string)
    ensures r == [] || (r[0] != c && r[|r| - 1] != c)
    ensures |r| <= |s|
  {
    if s != [] && s[0] == c then StripChar(s[1..], c)
    else if s != [] && s[|s| - 1] == c then StripChar(s[..|s| - 1], c)
    else s
  }

  /** s.replace(c, "") for a single character */
  function RemoveChar(s: string, c: char): (r: string)
    ensures c !in r && |r| <= |s|
  {
    if s == [] then [] else (if s[0] == c then [] else [s[0]]) + RemoveChar(s[1..], c)
  }

  /** Removing a character from two strings joined is removing it from each. */
  lemma {:induction false} RemoveCharAppend(x: string, y: string, c: char)
    ensures RemoveChar(x + y, c) == RemoveChar(x, c) + RemoveChar(y, c)
  {
    if x != [] {
      assert (x + y)[0] == x[0] && (x + y)[1..] == x[1..] + y;
      RemoveCharAppend(x[1..], y, c);
    } else {
      assert x + y == y;
    }
  }

  /** Removing a character the string does not hold changes nothing. */
  lemma {:induction false} RemoveAbsentChar(s: string, c: char)
    requires c !in s
    ensures RemoveChar(s, c) == s
  {
    if s != [] {
      RemoveAbsentChar(s[1..], c);
      assert [s[0]] + s[1..] == s;
    }
  }

  /** s.replace(a, b) for single characters */
  function ReplaceChar(s: string, a: char, b: char): (r: string)
    ensures |r| == |s|
    ensures forall i :: 0 <= i < |s| ==> r[i] == if s[i] == a then b else s[i]
  {
    if s == [] then [] else [if s[0] == a then b else s[0]] + ReplaceChar(s[1..], a, b)
  }

  /** str.split(c) for a single character c: the pieces between the separators. */
  function Split(s: string, c: char): (r: seq<string>)
    ensures |r| >= 1
    ensures forall i :: 0 <= i < |r| ==> c !in r[i]
  {
    if s == [] then [[]]
    else if s[0] == c then [[]] + Split(s[1..], c)
    else
      var rest := Split(s[1..], c);
      [[s[0]] + rest[0]] + rest[1..]
  }

  /** s.split(c) has one piece more than s has separators. */
  lemma {:induction false} SplitCount(s: string, c: char)
    ensures |Split(s, c)| == multiset(s)[c] + 1
  {
    if s != [] {
      SplitCount(s[1..], c);
      assert s == [s[0]] + s[1..];
    }
  }

  /** A string without the separator is one piece. */
  lemma {:induction false} SplitNone(s: string, c: char)
    requires c !in s
    ensures Split(s, c) == [s]
  {
    if s != [] {
      SplitNone(s[1..], c);
      assert [s[0]] + s[1..] == s;
    }
  }

  /** The piece before the first separator comes off the front of the split. */
  lemma {:induction false} SplitAt(a: string, b: string, c: char)
    requires c !in a
    ensures Split(a + [c] + b, c) == [a] + Split(b, c)
  {
    if a == [] {
      assert a + [c] + b == [c] + b;
      assert ([c] + b)[1..] == b;
    } else {
      var s := a + [c] + b;
      assert s[0] == a[0] && s[1..] == a[1..] + [c] + b;
      SplitAt(a[1..], b, c);
      assert [a[0]] + a[1..] == a;
    }
  }

  // ---------------------------------------------------------------------
  // Dates and rounding

  /** A calendar date; with valid dates, the lexicographic order is the chronological one. */
  datatype Date = Date(year: int, month: int, day: int)

  predicate DateLe(a: Date, b: Date)
  {
    a.year < b.year || (a.year == b.year && (a.month < b.month || (a.month == b.month && a.day <= b.day)))
  }

  predicate IsLeap(y: int) { y % 4 == 0 && (y % 100 != 0 || y % 400 == 0) }

  function DaysInMonth(y: int, m: int): (n: int)
    ensures 28 <= n <= 31
  {
    if m == 2 then (if IsLeap(y) then 29 else 28)
    else if m in {4, 6, 9, 11} then 30
    else 31
  }

  /** The dates datetime.date accepts: years 1 to 9999 and a real day of a real month. */
  predicate ValidDate(d: Date)
  {
    1 <= d.year <= 9999 && 1 <= d.month <= 12 && 1 <= d.day <= DaysInMonth(d.year, d.month)
  }

  /** The whole number nearest to y, ties going to the even neighbour (ROUND_HALF_EVEN). */
  function RoundHalfEven(y: real): (k: int)
    ensures -0.5 <= k as real - y <= 0.5
  {
    var n := y.Floor;
    var frac := y - n as real;
    if frac < 0.5 then n else if frac > 0.5 then n + 1 else if n % 2 == 0 then n else n + 1
  }

  /** int(x) of a Decimal: the integer part, truncated toward zero. */
  function Trunc(x: real): (n: int)
    ensures x >= 0.0 ==> n >= 0 && n as real <= x < n as real + 1.0
    ensures x < 0.0 ==> n <= 0 && n as real - 1.0 < x <= n as real
  {
    if x >= 0.0 then x.Floor else -((-x).Floor)
  }

  /** A whole number rounds to itself. */
  lemma RoundWhole(k: int)
    ensures RoundHalfEven(k as real) == k
  {
    assert (k as real).Floor == k;
  }

  // ---------------------------------------------------------------------
  // Decimal numerals

  /** The value of a string of decimal digits. */
  function DigitsValue(s: string): nat
    requires AllDigits(s)
  {
    if s == [] then 0 else DigitsValue(s[..|s| - 1]) * 10 + (s[|s| - 1] as int - '0' as int)
  }

  /** str(n) for n >= 0 */
  function NatToString(n: nat): (s: string)
    ensures |s| >= 1 && AllDigits(s)
    ensures n > 0 ==> s[0] != '0'
    decreases n
  {
    if n < 10 then [DigitChar(n)] else NatToString(n / 10) + [DigitChar(n % 10)]
  }

  /** str(n) */
  function IntToString(n: int): string
  {
    if n < 0 then "-" + NatToString(-n) else NatToString(n)
  }

  /** '%Ns' % s: left-pads with c up to width characters; never truncates. */
  function PadLeft(s: string, width: nat, c: char): (r: string)
    ensures |r| == if |s| < width then width else |s|
    ensures r[|r| - |s|..] == s
    ensures forall i :: 0 <= i < |r| - |s| ==> r[i] == c
  {
    if |s| < width then seq(width - |s|, _ => c) + s else s
  }

  /** '%Ns' % s padding on the right ('%-Ns') */
  function PadRight(s: string, width: nat, c: char): (r: string)
    ensures |r| == if |s| < width then width else |s|
    ensures r[..|s|] == s
  {
    if |s| < width then s + seq(width - |s|, _ => c) else s
  }

  /** '%0Nd' % n: zero padded to width, the sign counting in the width. */
  function FormatZeroPadded(n: int, width: nat): string
  {
    if n >= 0 then PadLeft(NatToString(n), width, '0')
    else "-" + PadLeft(NatToString(-n), if width > 0 then width - 1 else 0, '0')
  }

  /** '%Nd' % n: space padded to width. */
  function FormatSpacePadded(n: int, width: nat): string
  {
    PadLeft(IntToString(n), width, ' ')
  }

  /**
   * int(s) for a str s: surrounding whitespace, an optional sign and at least
   * one ASCII digit. Underscore separators and non-ASCII digits are not modelled.
   */
  function ParseInt(s: string): Option<int>
  {
    ParseNumeral(Strip(s))
  }

  /** int() of an already stripped string: an optional sign and the digits. */
  function ParseNumeral(t: string): Option<int>
  {
    if t == [] then None
    else
      var neg := t[0] == '-';
      var body := if t[0] == '-' || t[0] == '+' then t[1..] else t;
      if body != [] && AllDigits(body) then
        var v: int := DigitsValue(body);
        Some(if neg then -v else v)
      else None
  }

  lemma {:induction false} ParseDigits(t: string)
    requires t != [] && AllDigits(t)
    ensures ParseInt(t) == Some(DigitsValue(t))
  {
    NoSpaceInDigits(t);
  }

  lemma {:induction false} ParseNegativeDigits(t: string)
    requires t != [] && AllDigits(t)
    ensures ParseInt("-" + t) == Some(-(DigitsValue(t) as int))
  {
    var u := "-" + t;
    assert u[1..] == t;
    assert u[0] == '-';
    assert ParseNumeral(u) == Some(-(DigitsValue(t) as int));
    NegativeNumeralIsStripped(t);
    assert ParseInt(u) == ParseNumeral(Strip(u));
  }

  lemma {:induction false} NegativeNumeralIsStripped(t: string)
    requires t != [] && AllDigits(t)
    ensures Strip("-" + t) == "-" + t
  {
    var u := "-" + t;
    assert !IsSpace(u[0]);
    assert LStrip(u) == u;
    assert u[|u| - 1] == t[|t| - 1];
    assert IsDigit(u[|u| - 1]);
    assert RStrip(u) == u;
  }

  lemma {:induction false} DigitsValueOfNatToString(n: nat)
    ensures DigitsValue(NatToString(n)) == n
    decreases n
  {
    if n >= 10 {
      var s := NatToString(n);
      assert s[..|s| - 1] == NatToString(n / 10);
      DigitsValueOfNatToString(n / 10);
    }
  }

  lemma {:induction false} LeadingZerosIgnored(z: nat, s: string)
    requires AllDigits(s)
    ensures AllDigits(seq(z, _ => '0') + s)
    ensures DigitsValue(seq(z, _ => '0') + s) == DigitsValue(s)
    decreases |s|
  {
    var t := seq(z, _ => '0') + s;
    assert AllDigits(t);
    if s == [] {
      assert t == seq(z, _ => '0');
      ZerosValue(z);
    } else {
      assert t[..|t| - 1] == seq(z, _ => '0') + s[..|s| - 1];
      LeadingZerosIgnored(z, s[..|s| - 1]);
    }
  }

  lemma {:induction false} ZerosValue(z: nat)
    ensures AllDigits(seq(z, _ => '0'))
    ensures DigitsValue(seq(z, _ => '0')) == 0
  {
    if z > 0 {
      assert seq(z, _ => '0')[..z - 1] == seq(z - 1, _ => '0');
      ZerosValue(z - 1);
    }
  }

  lemma NoSpaceInDigits(s: string)
    requires AllDigits(s)
    ensures LStrip(s) == s && RStrip(s) == s && Strip(s) == s
  {
  }

  /** int('%0Nd' % n) == n: zero-padded decimal fields read back as the number written. */
  lemma {:induction false} ParseFormatZeroPadded(n: int, width: nat)
    ensures ParseInt(FormatZeroPadded(n, width)) == Some(n)
  {
    hide ParseInt, ParseNumeral, Strip, LStrip, RStrip, DigitsValue, NatToString, PadLeft;
    if n >= 0 {
      var padded := ZeroPaddedDigits(n, width);
      ParseDigits(padded);
    } else {
      var padded := ZeroPaddedDigits(-n, if width > 0 then width - 1 else 0);
      ParseNegativeDigits(padded);
      assert FormatZeroPadded(n, width) == "-" + padded;
    }
  }

  lemma {:induction false} ZeroPaddedDigits(m: nat, w: nat) returns (padded: string)
    ensures padded == PadLeft(NatToString(m), w, '0')
    ensures padded != [] && AllDigits(padded) && DigitsValue(padded) == m
  {
    var digits := NatToString(m);
    padded := PadLeft(digits, w, '0');
    var z := |padded| - |digits|;
    assert padded == seq(z, _ => '0') + digits;
    LeadingZerosIgnored(z, digits);
    DigitsValueOfNatToString(m);
  }

  /** int(str(n)) == n */
  lemma ParseIntToString(n: int)
    ensures ParseInt(IntToString(n)) == Some(n)
  {
    ParseFormatZeroPadded(n, 0);
    assert FormatZeroPadded(n, 0) == IntToString(n);
  }

  // ---------------------------------------------------------------------
  // Hexadecimal numerals

  function HexDigitChar(d: int): (c: char)
    requires 0 <= d < 16
  {
    if d < 10 then DigitChar(d) else ('A' as int + d - 10) as char
  }

  function Pow10(k: nat): (p: nat)
    ensures p >= 1
  {
    if k == 0 then 1 else 10 * Pow10(k - 1)
  }

  /** A number below 10^w has at most w digits. */
  lemma {:induction false} NatToStringLength(n: nat, w: nat)
    requires 1 <= w && n < Pow10(w)
    ensures |NatToString(n)| <= w
    decreases n
  {
    if n >= 10 {
      NatToStringLength(n / 10, w - 1);
    }
  }

  /** w digits write a number below 10^w. */
  lemma {:induction false} DigitsValueBound(s: string)
    requires AllDigits(s)
    ensures DigitsValue(s) < Pow10(|s|)
    decreases |s|
  {
    if s != [] {
      DigitsValueBound(s[..|s| - 1]);
    }
  }

  /** The value of digits a followed by digits b. */
  lemma {:induction false} DigitsValueAppend(a: string, b: string)
    requires AllDigits(a) && AllDigits(b)
    ensures AllDigits(a + b)
    ensures DigitsValue(a + b) == DigitsValue(a) * Pow10(|b|) + DigitsValue(b)
    decreases |b|
  {
    var s := a + b;
    assert AllDigits(s);
    if b != [] {
      var b' := b[..|b| - 1];
      var last := b[|b| - 1] as int - '0' as int;
      assert s[..|s| - 1] == a + b';
      assert s[|s| - 1] == b[|b| - 1];
      DigitsValueAppend(a, b');
      assert DigitsValue(s) == DigitsValue(a + b') * 10 + last;
      assert DigitsValue(b) == DigitsValue(b') * 10 + last;
      assert Pow10(|b|) == 10 * Pow10(|b'|);
      ShiftDigit(DigitsValue(a), DigitsValue(b'), Pow10(|b'|), last);
    } else {
      assert s == a;
    }
  }

  /** Appending one more digit d to x shifted by p digits followed by y. */
  lemma ShiftDigit(x: int, y: int, p: int, d: int)
    ensures (x * p + y) * 10 + d == x * (10 * p) + (y * 10 + d)
  {
  }

  /** Upper-case hexadecimal digits of n without padding ('%X' % n). */
  function NatToHex(n: nat): (s: string)
    ensures |s| >= 1
    decreases n
  {
    if n < 16 then [HexDigitChar(n)] else NatToHex(n / 16) + [HexDigitChar(n % 16)]
  }

  /** '%04X' % n and its kin: upper-case hex padded with zeros to width, never truncated. */
  function FormatHex(n: nat, width: nat): (r: string)
    ensures |r| >= width
  {
    PadLeft(NatToHex(n), width, '0')
  }

  predicate IsHexDigit(c: char) { IsDigit(c) || 'A' <= c <= 'F' || 'a' <= c <= 'f' }

  function HexDigitValue(c: char): (v: nat)
    requires IsHexDigit(c)
    ensures v < 16
  {
    if IsDigit(c) then c as int - '0' as int
    else if 'A' <= c <= 'F' then c as int - 'A' as int + 10
    else c as int - 'a' as int + 10
  }

  /** int(s, 16) for a string of hex digits */
  function HexValue(s: string): nat
    requires forall i :: 0 <= i < |s| ==> IsHexDigit(s[i])
  {
    if s == [] then 0 else HexValue(s[..|s| - 1]) * 16 + HexDigitValue(s[|s| - 1])
  }

  lemma {:induction false} HexLength(n: nat, k: nat)
    requires n < Pow16(k)
    ensures |NatToHex(n)| <= if k == 0 then 1 else k
    decreases n
  {
    if n >= 16 {
      assert n / 16 < Pow16(k - 1);
      HexLength(n / 16, k - 1);
    }
  }

  function Pow16(k: nat): (p: nat)
    ensures p >= 1
  {
    if k == 0 then 1 else 16 * Pow16(k - 1)
  }

  /** '%04X' % n is exactly four characters precisely when n < 0x10000. */
  lemma FormatHexWidth(n: nat)
    ensures |FormatHex(n, 4)| == 4 <==> n < 0x10000
  {
    assert Pow16(4) == 0x10000;
    if n < 0x10000 {
      HexLength(n, 4);
    } else {
      HexAtLeast(n, 4);
    }
  }

  lemma {:induction false} HexAtLeast(n: nat, k: nat)
    requires n >= Pow16(k)
    ensures |NatToHex(n)| >= k + 1
    decreases k
  {
    if k > 0 {
      assert n >= 16;
      assert n / 16 >= Pow16(k - 1);
      HexAtLeast(n / 16, k - 1);
    }
  }
}
