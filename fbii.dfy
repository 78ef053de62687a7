/*
 * The Epson FB II fiscal printer driver: binary packages with escaped
 * special bytes and an additive hexadecimal checksum, a running command id,
 * and a reply parser that pops fields off the front of the reply.
 */
module FBII {
  import opened Common
  import opened Utils
  import opened Serial

  const Ack: char := '\U{06}'
  const AckByte: byte := 0x06
  const Stx: char := '\U{02}'
  const Etx: char := '\U{03}'
  const Esc: char := '\U{1B}'
  const Fld: char := '\U{1C}'

  /** SPECIAL_CHARS, in the order escape() and unescape() visit them. */
  const SpecialChars: seq<char> := [Esc, Stx, Etx, Fld, '\U{1A}', '\U{1D}', '\U{1E}', '\U{1F}']

  predicate IsSpecial(c: char) { c in SpecialChars }

  // ---------------------------------------------------------------------
  // escape / unescape

  /** str.replace(pat, rep): every leftmost, non-overlapping occurrence, scanning left to right. */
  function Replace(s: string, pat: string, rep: string): (r: string)
    requires pat != []
    decreases |s|
  {
    if |s| < |pat| then s
    else if s[..|pat|] == pat then rep + Replace(s[|pat|..], pat, rep)
    else [s[0]] + Replace(s[1..], pat, rep)
  }

  /** The passes of escape() from the k-th special character on: each replaces c with ESC + c. */
  function EscapeFrom(s: string, k: nat): string
    requires k <= |SpecialChars|
    decreases |SpecialChars| - k
  {
    if k == |SpecialChars| then s
    else EscapeFrom(Replace(s, [SpecialChars[k]], [Esc, SpecialChars[k]]), k + 1)
  }

  /** escape(string) */
  function Escape(s: string): string
  {
    EscapeFrom(s, 0)
  }

  /** The passes of unescape() from the k-th special character on: each replaces ESC + c with c. */
  function UnescapeFrom(s: string, k: nat): string
    requires k <= |SpecialChars|
    decreases |SpecialChars| - k
  {
    if k == |SpecialChars| then s
    else UnescapeFrom(Replace(s, [Esc, SpecialChars[k]], [SpecialChars[k]]), k + 1)
  }

  /** unescape(string) */
  function Unescape(s: string): string
  {
    UnescapeFrom(s, 0)
  }

  /** A character once the first k passes of escape() have run: ESC in front of it when it is one of theirs. */
  function EscapedChar(c: char, k: nat): string
    requires k <= |SpecialChars|
  {
    if c in SpecialChars[..k] then [Esc, c] else [c]
  }

  /** The string once the first k passes of escape() have run, character by character. */
  function EscapedUpTo(s: string, k: nat): (r: string)
    requires k <= |SpecialChars|
  {
    if s == [] then [] else EscapedChar(s[0], k) + EscapedUpTo(s[1..], k)
  }

  /** What escape() gives, character by character: every special character gets an ESC in front. */
  function Escaped(s: string): string
  {
    EscapedUpTo(s, |SpecialChars|)
  }

  /** An escaped character once the first k passes of unescape() have run. */
  function UnescapedChar(c: char, k: nat): string
    requires k <= |SpecialChars|
  {
    if c in SpecialChars[..k] || !IsSpecial(c) then [c] else [Esc, c]
  }

  function UnescapedUpTo(s: string, k: nat): (r: string)
    requires k <= |SpecialChars|
  {
    if s == [] then [] else UnescapedChar(s[0], k) + UnescapedUpTo(s[1..], k)
  }

  /** Unfolding Replace where the pattern does not start the string. */
  lemma ReplaceSkip(s: string, pat: string, rep: string)
    requires pat != [] && s != [] && s[0] != pat[0]
    ensures Replace(s, pat, rep) == if |s| < |pat| then s else [s[0]] + Replace(s[1..], pat, rep)
  {
  }

  /** Unfolding Replace where the pattern starts the string. */
  lemma ReplaceMatch(s: string, pat: string, rep: string, rest: string)
    requires pat != [] && s == pat + rest
    ensures Replace(s, pat, rep) == rep + Replace(rest, pat, rep)
  {
    assert s[..|pat|] == pat && s[|pat|..] == rest;
  }

  /** A one-character pattern is replaced piece by piece. */
  lemma {:induction false} ReplaceOneAppend(a: string, b: string, x: char, rep: string)
    ensures Replace(a + b, [x], rep) == Replace(a, [x], rep) + Replace(b, [x], rep)
    decreases |a|
  {
    if a == [] {
      assert a + b == b;
    } else {
      assert (a + b)[1..] == a[1..] + b;
      assert (a + b)[..1] == a[..1];
      ReplaceOneAppend(a[1..], b, x, rep);
    }
  }

  /** A pattern whose first character does not occur leaves the string alone. */
  lemma {:induction false} ReplaceAbsent(s: string, pat: string, rep: string)
    requires pat != [] && pat[0] !in s
    ensures Replace(s, pat, rep) == s
    decreases |s|
  {
    if |s| >= |pat| {
      assert s[..|pat|][0] == s[0];
      ReplaceAbsent(s[1..], pat, rep);
      assert [s[0]] + s[1..] == s;
    }
  }

  lemma SpecialsDistinct(i: nat, j: nat)
    requires i < |SpecialChars| && j < |SpecialChars| && i != j
    ensures SpecialChars[i] != SpecialChars[j]
  {
  }

  /** Pass k of escape() on one character that the earlier passes have seen. */
  lemma EscapeCharStep(c: char, k: nat)
    requires k < |SpecialChars|
    ensures Replace(EscapedChar(c, k), [SpecialChars[k]], [Esc, SpecialChars[k]]) == EscapedChar(c, k + 1)
  {
    var x := SpecialChars[k];
    assert SpecialChars[..k + 1] == SpecialChars[..k] + [x];
    if c in SpecialChars[..k] {
      var i :| 0 <= i < k && SpecialChars[i] == c;
      SpecialsDistinct(i, k);
      assert k > 0 ==> SpecialChars[0] in SpecialChars[..k];
      ReplaceSkip([Esc, c], [x], [Esc, x]);
      ReplaceSkip([c], [x], [Esc, x]);
    } else if c == x {
      ReplaceMatch([c], [x], [Esc, x], []);
    } else {
      ReplaceSkip([c], [x], [Esc, x]);
    }
  }

  /** Pass k of escape() turns the string escaped by passes 0 to k - 1 into the one escaped by passes 0 to k. */
  lemma {:induction false} EscapePass(s: string, k: nat)
    requires k < |SpecialChars|
    ensures Replace(EscapedUpTo(s, k), [SpecialChars[k]], [Esc, SpecialChars[k]]) == EscapedUpTo(s, k + 1)
    decreases |s|
  {
    if s != [] {
      var x := SpecialChars[k];
      ReplaceOneAppend(EscapedChar(s[0], k), EscapedUpTo(s[1..], k), x, [Esc, x]);
      EscapeCharStep(s[0], k);
      EscapePass(s[1..], k);
    }
  }

  /** Before any pass, the string is itself. */
  lemma {:induction false} EscapedNone(s: string)
    ensures EscapedUpTo(s, 0) == s && UnescapedUpTo(s, |SpecialChars|) == s
    decreases |s|
  {
    if s != [] {
      EscapedNone(s[1..]);
      assert [s[0]] + s[1..] == s;
    }
  }

  lemma {:induction false} EscapePasses(s: string, k: nat)
    requires k <= |SpecialChars|
    ensures EscapeFrom(EscapedUpTo(s, k), k) == Escaped(s)
    decreases |SpecialChars| - k
  {
    if k < |SpecialChars| {
      EscapePass(s, k);
      EscapePasses(s, k + 1);
    }
  }

  /** escape() puts one ESC in front of every special character and leaves the rest alone. */
  lemma EscapeIsEscaped(s: string)
    ensures Escape(s) == Escaped(s)
  {
    EscapedNone(s);
    EscapePasses(s, 0);
  }

  /** The first character of what UnescapedUpTo gives for a non-empty string, as far as pass k cares. */
  lemma UnescapedHead(s: string, k: nat)
    requires 1 <= k < |SpecialChars| && s != []
    ensures UnescapedUpTo(s, k) != [] && UnescapedUpTo(s, k)[0] != SpecialChars[k]
  {
    var c := s[0];
    if c in SpecialChars[..k] {
      var i :| 0 <= i < k && SpecialChars[i] == c;
      SpecialsDistinct(i, k);
    } else {
      SpecialsDistinct(0, k);
    }
  }

  /** A character that cannot start the pattern is kept, and the scan goes on after it. */
  lemma ReplaceKeep(c: char, rest: string, pat: string, rep: string)
    requires pat != [] && c != pat[0]
    ensures Replace([c] + rest, pat, rep) == [c] + Replace(rest, pat, rep)
  {
    var t := [c] + rest;
    assert t[1..] == rest;
    if |t| < |pat| {
      assert |rest| < |pat|;
    }
  }

  /** The first character of a two-character pattern, not followed by the second, is kept. */
  lemma ReplaceKeepFirst(rest: string, pat: string, rep: string)
    requires |pat| == 2 && (rest == [] || rest[0] != pat[1])
    ensures Replace([pat[0]] + rest, pat, rep) == [pat[0]] + Replace(rest, pat, rep)
  {
    var t := [pat[0]] + rest;
    assert t[1..] == rest;
    if rest != [] {
      assert t[..2][1] == rest[0];
    }
  }

  /** Where the k-th special character and ESC sit among the ones passes 0 to k - 1 have seen. */
  lemma SeenSpecials(c: char, k: nat)
    requires k < |SpecialChars|
    ensures SpecialChars[..k + 1] == SpecialChars[..k] + [SpecialChars[k]]
    ensures c in SpecialChars[..k] ==> c != SpecialChars[k]
    ensures k > 0 ==> Esc in SpecialChars[..k] && Esc != SpecialChars[k]
    ensures IsSpecial(c) && c !in SpecialChars[..k] && c != SpecialChars[k] ==> c != Esc
  {
    if c in SpecialChars[..k] {
      var i :| 0 <= i < k && SpecialChars[i] == c;
      SpecialsDistinct(i, k);
    }
    if k > 0 {
      assert SpecialChars[..k][0] == Esc;
      SpecialsDistinct(0, k);
    }
  }

  /** The three ways pass k of unescape() can meet a character. */
  lemma UnescapedCases(c: char, k: nat) returns (kept: bool, matched: bool)
    requires k < |SpecialChars|
    ensures kept ==> UnescapedChar(c, k) == [c] && UnescapedChar(c, k + 1) == [c]
    ensures kept && c == Esc ==> k > 0 && Esc in SpecialChars[..k] && Esc != SpecialChars[k]
    ensures !kept && matched ==> c == SpecialChars[k] && UnescapedChar(c, k) == [Esc, c] && UnescapedChar(c, k + 1) == [c]
    ensures !kept && !matched ==>
      c != SpecialChars[k] && c != Esc &&
      UnescapedChar(c, k) == [Esc, c] && UnescapedChar(c, k + 1) == [Esc, c]
  {
    SeenSpecials(c, k);
    kept := c in SpecialChars[..k] || !IsSpecial(c);
    matched := c == SpecialChars[k];
    if kept && c == Esc {
      assert SpecialChars[0] == Esc;
    }
  }

  /** An escaped character that pass k leaves as it is, ESC and all. */
  lemma ReplaceKeepEscaped(c: char, rest: string, pat: string, rep: string)
    requires |pat| == 2 && c != pat[1] && c != pat[0]
    ensures Replace([pat[0], c] + rest, pat, rep) == [pat[0], c] + Replace(rest, pat, rep)
  {
    hide *;
    assert [pat[0], c] + rest == [pat[0]] + ([c] + rest);
    ReplaceKeepFirst([c] + rest, pat, rep);
    ReplaceKeep(c, rest, pat, rep);
    assert [pat[0]] + ([c] + Replace(rest, pat, rep)) == [pat[0], c] + Replace(rest, pat, rep);
  }

  /** Pass k of unescape() on one escaped character and what follows it. */
  lemma UnescapeCharStep(c: char, rest: string, k: nat)
    requires k < |SpecialChars|
    requires k > 0 && c == Esc ==> rest == [] || rest[0] != SpecialChars[k]
    ensures Replace(UnescapedChar(c, k) + rest, [Esc, SpecialChars[k]], [SpecialChars[k]]) ==
      UnescapedChar(c, k + 1) + Replace(rest, [Esc, SpecialChars[k]], [SpecialChars[k]])
  {
    var x := SpecialChars[k];
    var pat := [Esc, x];
    var kept, matched := UnescapedCases(c, k);
    hide *;
    if kept {
      if c != Esc {
        ReplaceKeep(c, rest, pat, [x]);
      } else {
        ReplaceKeepFirst(rest, pat, [x]);
      }
    } else if matched {
      ReplaceMatch(pat + rest, pat, [x], rest);
    } else {
      ReplaceKeepEscaped(c, rest, pat, [x]);
    }
  }

  /** Pass k of unescape() takes the ESC off every escaped character equal to the k-th special one, and only those. */
  lemma {:induction false} UnescapePass(s: string, k: nat)
    requires k < |SpecialChars|
    ensures Replace(UnescapedUpTo(s, k), [Esc, SpecialChars[k]], [SpecialChars[k]]) == UnescapedUpTo(s, k + 1)
    decreases |s|
  {
    if s != [] {
      if k > 0 && s[1..] != [] {
        UnescapedHead(s[1..], k);
      }
      UnescapeCharStep(s[0], UnescapedUpTo(s[1..], k), k);
      UnescapePass(s[1..], k);
    }
  }

  /** The escaped string is where the passes of unescape() start from. */
  lemma {:induction false} EscapedIsUnescapedNone(s: string)
    ensures Escaped(s) == UnescapedUpTo(s, 0)
    decreases |s|
  {
    if s != [] {
      assert SpecialChars[..|SpecialChars|] == SpecialChars;
      EscapedIsUnescapedNone(s[1..]);
    }
  }

  lemma {:induction false} UnescapePasses(s: string, k: nat)
    requires k <= |SpecialChars|
    ensures UnescapeFrom(UnescapedUpTo(s, k), k) == s
    decreases |SpecialChars| - k
  {
    if k < |SpecialChars| {
      UnescapePass(s, k);
      UnescapePasses(s, k + 1);
    } else {
      EscapedNone(s);
    }
  }

  /** unescape(escape(s)) == s, for every string s. */
  lemma UnescapeEscape(s: string)
    ensures Unescape(Escape(s)) == s
  {
    EscapeIsEscaped(s);
    EscapedIsUnescapedNone(s);
    UnescapePasses(s, 0);
  }

  // ---------------------------------------------------------------------
  // Packages

  predicate AllHex(s: string) { forall i :: 0 <= i < |s| ==> IsHexDigit(s[i]) }

  /**
   * int(s, 16): surrounding whitespace, an optional sign, an optional 0x
   * prefix and at least one hexadecimal digit.
   */
  function ParseHex(s: string): Option<int>
  {
    var t := Strip(s);
    if t == [] then None
    else
      var neg := t[0] == '-';
      var body := if t[0] == '-' || t[0] == '+' then t[1..] else t;
      var digits := if |body| >= 2 && body[0] == '0' && (body[1] == 'x' || body[1] == 'X') then body[2..] else body;
      if digits != [] && AllHex(digits) then
        var v: int := HexValue(digits);
        Some(if neg then -v else v)
      else None
  }

  /** Hexadecimal digits alone are read as their value. */
  lemma ParseHexDigits(s: string)
    requires AllHex(s) && s != []
    ensures ParseHex(s) == Some(HexValue(s))
  {
    assert IsHexDigit(s[0]) && IsHexDigit(s[|s| - 1]);
    assert !IsSpace(s[0]) && !IsSpace(s[|s| - 1]);
    assert LStrip(s) == s;
    assert RStrip(s) == s;
    assert s[0] != '-' && s[0] != '+';
    assert |s| >= 2 ==> IsHexDigit(s[1]) && s[1] != 'x' && s[1] != 'X';
  }

  /** chr(n): a byte-sized code, else ValueError. */
  function Chr(n: int): (r: Result<char>)
    ensures r.Ok? <==> 0 <= n < 256
    ensures r.Ok? ==> r.value as int == n
    ensures r.Err? ==> r.error == Raise(ValueError)
  {
    if 0 <= n < 256 then Ok(n as char) else Err(Raise(ValueError))
  }

  /** chr(int(s, 16)) */
  function HexChar(s: string): (r: Result<char>)
    ensures r.Err? ==> r.error == Raise(ValueError)
  {
    match ParseHex(s)
    case None => Err(Raise(ValueError))
    case Some(v) => Chr(v)
  }

  /** '%s%s' % (chr(int(code[:2], 16)), chr(int(code[2:], 16))): a code in hex becomes two raw characters. */
  function RawCode(code: string): (r: Result<string>)
    ensures r.Ok? ==> |r.value| == 2
    ensures r.Err? ==> r.error == Raise(ValueError)
  {
    var hi := HexChar(Slice(code, 0, 2));
    if hi.Err? then Err(hi.error)
    else
      var lo := HexChar(Slice(code, 2, |code|));
      if lo.Err? then Err(lo.error) else Ok([hi.value, lo.value])
  }

  /** sum([ord(d) for d in s]) */
  function Sum(s: string): nat
  {
    if s == [] then 0 else Sum(s[..|s| - 1]) + s[|s| - 1] as int
  }

  /** '%04X' % sum(...): the checksum that ends a package and a reply. */
  function Checksum(s: string): string
  {
    FormatHex(Sum(s), 4)
  }

  /** FLD + escape(arg) for each argument, in order. */
  function ArgFields(args: seq<string>): string
  {
    if args == [] then [] else ArgFields(args[..|args| - 1]) + [Fld] + Escape(args[|args| - 1])
  }

  /** escape(command) + FLD + escape(extension), then the arguments. */
  function PackageFrame(command: string, extension: string, args: seq<string>): string
  {
    Escape(command) + [Fld] + Escape(extension) + ArgFields(args)
  }

  /**
   * _get_package(command, extension, args) with the id counter at lastId:
   * the package and the counter afterwards. The counter moves only once the
   * codes have converted, and it moves even when chr() then refuses it.
   */
  function PackageFrom(lastId: int, command: string, extension: string, args: seq<string>): (r: (Result<string>, int))
    ensures r.1 == lastId || r.1 == lastId + 1
    ensures r.0.Ok? ==> r.1 == lastId + 1 && 0 <= r.1 < 256
  {
    var cmd := RawCode(command);
    if cmd.Err? then (Err(cmd.error), lastId)
    else
      var ext := RawCode(extension);
      if ext.Err? then (Err(ext.error), lastId)
      else
        var frame := PackageFrame(cmd.value, ext.value, args);
        var id := lastId + 1;
        var ch := Chr(id);
        if ch.Err? then (Err(ch.error), id)
        else
          var package := [Stx, ch.value] + frame + [Etx];
          (Ok(package + Checksum(package)), id)
  }

  lemma HexDigitRoundTrip(d: int)
    requires 0 <= d < 16
    ensures IsHexDigit(HexDigitChar(d)) && HexDigitValue(HexDigitChar(d)) == d
  {
  }

  lemma {:induction false} HexOfNatToHex(n: nat)
    ensures AllHex(NatToHex(n)) && HexValue(NatToHex(n)) == n
    decreases n
  {
    if n < 16 {
      HexDigitRoundTrip(n);
    } else {
      var s := NatToHex(n);
      HexOfNatToHex(n / 16);
      HexDigitRoundTrip(n % 16);
      assert s[..|s| - 1] == NatToHex(n / 16);
    }
  }

  lemma {:induction false} HexOfZeros(z: nat)
    ensures AllHex(seq(z, _ => '0')) && HexValue(seq(z, _ => '0')) == 0
    decreases z
  {
    if z > 0 {
      var t := seq(z, _ => '0');
      assert t[..z - 1] == seq(z - 1, _ => '0');
      HexOfZeros(z - 1);
    }
  }

  /** Leading zeros do not change a hexadecimal value. */
  lemma {:induction false} HexLeadingZeros(z: nat, s: string)
    requires AllHex(s)
    ensures AllHex(seq(z, _ => '0') + s) && HexValue(seq(z, _ => '0') + s) == HexValue(s)
    decreases |s|
  {
    var zeros := seq(z, _ => '0');
    var t := zeros + s;
    if s == [] {
      assert t == zeros;
      HexOfZeros(z);
    } else {
      HexLeadingZeros(z, s[..|s| - 1]);
      assert t[..|t| - 1] == zeros + s[..|s| - 1];
      assert t[|t| - 1] == s[|s| - 1];
      HexOfZeros(z);
    }
  }

  /** '%04X' % n reads back as n under int(..., 16), whatever its width. */
  lemma FormatHexRoundTrip(n: nat, w: nat)
    ensures AllHex(FormatHex(n, w)) && HexValue(FormatHex(n, w)) == n
  {
    var h := NatToHex(n);
    HexOfNatToHex(n);
    if |h| < w {
      HexLeadingZeros(w - |h|, h);
      assert FormatHex(n, w) == seq(w - |h|, _ => '0') + h;
    } else {
      assert FormatHex(n, w) == h;
    }
  }

  /**
   * The checksum field is the byte sum itself in upper-case hex: it reads
   * back as the sum, it has at least four digits, and it has exactly four
   * only while the sum is below 0x10000, for it is never reduced.
   */
  lemma ChecksumField(s: string)
    ensures AllHex(Checksum(s)) && HexValue(Checksum(s)) == Sum(s)
    ensures |Checksum(s)| >= 4
    ensures |Checksum(s)| == 4 <==> Sum(s) < 0x10000
  {
    FormatHexRoundTrip(Sum(s), 4);
    FormatHexWidth(Sum(s));
  }

  /** The value of two hexadecimal digits. */
  lemma HexValueTwo(s: string)
    requires |s| == 2 && AllHex(s)
    ensures HexValue(s) == HexDigitValue(s[0]) * 16 + HexDigitValue(s[1])
  {
    assert s[..1][..0] == [] && s[..1][0] == s[0];
    assert HexValue(s[..1]) == HexDigitValue(s[0]);
    assert s[..|s| - 1] == s[..1];
    assert HexValue(s) == HexValue(s[..1]) * 16 + HexDigitValue(s[1]);
  }

  /** Two hexadecimal digits make a byte. */
  lemma TwoHexDigits(s: string)
    requires |s| == 2 && AllHex(s)
    ensures HexChar(s).Ok? && HexChar(s).value as int == HexDigitValue(s[0]) * 16 + HexDigitValue(s[1])
  {
    hide ParseHex, HexValue, HexChar;
    ParseHexDigits(s);
    HexValueTwo(s);
    assert HexChar(s) == Chr(HexValue(s)) by {
      HexCharOf(s, HexValue(s));
    }
  }

  /** chr(int(s, 16)) once int(s, 16) is known. */
  lemma HexCharOf(s: string, v: int)
    requires ParseHex(s) == Some(v)
    ensures HexChar(s) == Chr(v)
  {
  }

  /** A code written as four hexadecimal digits becomes the two bytes those digits spell. */
  lemma RawCodeOfHex(code: string) returns (hi: char, lo: char)
    requires |code| == 4 && AllHex(code)
    ensures RawCode(code) == Ok([hi, lo])
    ensures hi as int == HexDigitValue(code[0]) * 16 + HexDigitValue(code[1])
    ensures lo as int == HexDigitValue(code[2]) * 16 + HexDigitValue(code[3])
  {
    hide *;
    HexHalves(code);
    TwoHexDigits(code[..2]);
    TwoHexDigits(code[2..]);
    hi, lo := HexChar(code[..2]).value, HexChar(code[2..]).value;
    RawCodeOfHalves(code, hi, lo);
  }

  /** The two halves of a four-digit code, as _get_package slices them. */
  lemma HexHalves(code: string)
    requires |code| == 4 && AllHex(code)
    ensures Slice(code, 0, 2) == code[..2] && Slice(code, 2, |code|) == code[2..]
    ensures |code[..2]| == 2 && AllHex(code[..2]) && |code[2..]| == 2 && AllHex(code[2..])
    ensures code[..2][0] == code[0] && code[..2][1] == code[1] && code[2..][0] == code[2] && code[2..][1] == code[3]
  {
  }

  /** RawCode(code) once both halves are known to convert. */
  lemma RawCodeOfHalves(code: string, hi: char, lo: char)
    requires HexChar(Slice(code, 0, 2)) == Ok(hi) && HexChar(Slice(code, 2, |code|)) == Ok(lo)
    ensures RawCode(code) == Ok([hi, lo])
  {
  }

  /**
   * The package for codes written as four hexadecimal digits: STX, the next
   * id, the escaped command bytes, FLD, the escaped extension bytes, FLD and
   * each escaped argument, ETX, then the checksum of all of these. The id is
   * one more than the last, and chr() refuses it from 256 on.
   */
  lemma PackageLayout(lastId: int, command: string, extension: string, args: seq<string>)
    requires |command| == 4 && AllHex(command) && |extension| == 4 && AllHex(extension)
    ensures RawCode(command).Ok? && RawCode(extension).Ok?
    ensures var r := PackageFrom(lastId, command, extension, args);
      r.1 == lastId + 1 &&
      (r.0.Ok? <==> 0 <= lastId + 1 < 256) &&
      (r.0.Err? ==> r.0.error == Raise(ValueError)) &&
      (r.0.Ok? ==>
        var body := [Stx, (lastId + 1) as char] + Escaped(RawCode(command).value) + [Fld] +
          Escaped(RawCode(extension).value) + ArgFields(args) + [Etx];
        r.0.value == body + Checksum(body))
  {
    hide RawCode, Escape, Escaped, Checksum, ArgFields, HexValue, AllHex, Slice;
    var c0, c1 := RawCodeOfHex(command);
    var e0, e1 := RawCodeOfHex(extension);
    var cv, ev := [c0, c1], [e0, e1];
    EscapeIsEscaped(cv);
    EscapeIsEscaped(ev);
    if 0 <= lastId + 1 < 256 {
      var body := [Stx, (lastId + 1) as char] + Escaped(cv) + [Fld] + Escaped(ev) + ArgFields(args) + [Etx];
      assert [Stx, (lastId + 1) as char] + PackageFrame(cv, ev, args) + [Etx] == body;
    }
  }

  /** A code that int(..., 16) cannot read raises ValueError, and the id does not move. */
  lemma BadCodeKeepsId(lastId: int, command: string, extension: string, args: seq<string>)
    requires ParseHex(Slice(command, 0, 2)).None?
    ensures PackageFrom(lastId, command, extension, args) == (Err(Raise(ValueError)), lastId)
  {
  }

  /** Ids run from 139 on, so no id is one of the special characters and none needs escaping. */
  lemma IdNotSpecial(id: int)
    requires 139 <= id < 256
    ensures !IsSpecial(id as char)
  {
  }

  /**
   * From the initial 138, n packages with good codes leave the counter at
   * 138 + n; the package is refused exactly once the counter passes 255, and
   * the counter never wraps.
   */
  lemma {:induction false} IdsRunOut(n: nat, command: string, extension: string, args: seq<string>)
    requires |command| == 4 && AllHex(command) && |extension| == 4 && AllHex(extension)
    ensures Counter(138, n, command, extension, args) == 138 + n
    ensures PackageFrom(138 + n, command, extension, args).0.Ok? <==> n < 117
    decreases n
  {
    PackageLayout(138 + n, command, extension, args);
    if n > 0 {
      IdsRunOut(n - 1, command, extension, args);
      PackageLayout(138 + n - 1, command, extension, args);
    }
  }

  /** The counter after n calls of _get_package with the same codes. */
  function Counter(start: int, n: nat, command: string, extension: string, args: seq<string>): int
  {
    if n == 0 then start else PackageFrom(Counter(start, n - 1, command, extension, args), command, extension, args).1
  }

  // ---------------------------------------------------------------------
  // Replies

  /** A parsed reply: an intermediate one carries nothing else. */
  datatype ReplyData =
    | Intermediate
    | Final(printerStatus: int, fiscalStatus: int, replyStatus: string, fields: seq<string>)

  /** s[-n:] */
  function TailOf(s: string, n: nat): (r: string)
    ensures |r| == if |s| < n then |s| else n
  {
    if |s| < n then s else s[|s| - n..]
  }

  /** s[:-n] */
  function DropTail(s: string, n: nat): (r: string)
    ensures |r| == if |s| < n then 0 else |s| - n
  {
    if |s| < n then [] else s[..|s| - n]
  }

  /** struct.unpack('>H', b)[0]: exactly two bytes, big-endian. */
  function Unpack16(b: string): (r: Result<int>)
    ensures r.Ok? <==> |b| == 2
    ensures r.Err? ==> r.error == Raise(StructError)
  {
    if |b| != 2 then Err(Raise(StructError)) else Ok(b[0] as int * 256 + b[1] as int)
  }

  /** '%02X%02X' % (ord(r[0]), ord(r[1])): IndexError when fewer than two characters were left. */
  function StatusHex(r: string): (s: Result<string>)
    ensures s.Ok? <==> |r| >= 2
    ensures s.Err? ==> s.error == Raise(IndexError)
  {
    if |r| < 2 then Err(Raise(IndexError)) else Ok(FormatHex(r[0] as int, 2) + FormatHex(r[1] as int, 2))
  }

  /** The part of Reply.__init__ after the reserved byte that follows the fiscal status. */
  function ParseTail(t: string, printerStatus: int, fiscalStatus: int): (r: Result<ReplyData>)
    ensures r.Ok? ==> r.value.Final?
  {
    var r := Slice(t, 0, 2);
    var t1 := Slice(t, 2, |t|);
    var status := StatusHex(r);
    if status.Err? then Err(status.error)
    else
      var f3 := Slice(t1, 0, 1);
      var t2 := Slice(t1, 1, |t1|);
      if f3 != [Fld] then Err(Raise(AssertionError))
      else
        var t3 := Slice(t2, 1, |t2|);
        Ok(Final(printerStatus, fiscalStatus, status.value, Split(DropTail(t3, 1), Fld)))
  }

  /** The part of Reply.__init__ after the first separator: the fiscal status and what follows. */
  function ParseFiscal(t: string, printerStatus: int): (r: Result<ReplyData>)
    ensures r.Ok? ==> r.value.Final?
  {
    var fs := Unpack16(Slice(t, 0, 2));
    var t1 := Slice(t, 2, |t|);
    if fs.Err? then Err(fs.error)
    else if Slice(t1, 0, 1) != [Fld] then Err(Raise(AssertionError))
    else
      var t2 := Slice(t1, 1, |t1|);
      ParseTail(Slice(t2, 1, |t2|), printerStatus, fs.value)
  }

  /** The part of Reply.__init__ after the frame id and the ETX check: the printer status and what follows. */
  function ParseStatuses(t: string): (r: Result<ReplyData>)
    ensures r.Ok? ==> r.value.Final?
  {
    var ps := Unpack16(Slice(t, 0, 2));
    var t1 := Slice(t, 2, |t|);
    if ps.Err? then Err(ps.error)
    else if Slice(t1, 0, 1) != [Fld] then Err(Raise(AssertionError))
    else ParseFiscal(Slice(t1, 1, |t1|), ps.value)
  }

  /** The unescaped reply: STX, the frame id, and ETX at the end around the statuses and fields. */
  function ParseFrame(u: string, commandId: int): Result<ReplyData>
  {
    var u1 := Slice(u, 1, |u|);
    if Slice(u, 0, 1) != [Stx] then Err(Raise(AssertionError))
    else
      var frameId := Slice(u1, 0, 1);
      var u2 := Slice(u1, 1, |u1|);
      if frameId == "0x80" then Ok(Intermediate)
      else if !(0 <= commandId < 256) then Err(Raise(ValueError))
      else if frameId != [commandId as char] then Err(Raise(AssertionError))
      else if u2 == [] then Err(Raise(IndexError))
      else if u2[|u2| - 1] != Etx then Err(Raise(AssertionError))
      else ParseStatuses(u2)
  }

  /**
   * Reply(string, command_id): the last four characters must be the
   * checksum of the rest, still escaped; the rest is unescaped, then STX,
   * the frame id (which must be chr(command_id)) and ETX at the end are
   * checked, and the statuses and fields popped off the front.
   */
  function ParseReply(s: string, commandId: int): Result<ReplyData>
  {
    var body := DropTail(s, 4);
    if Checksum(body) != TailOf(s, 4) then Err(Raise(AssertionError))
    else ParseFrame(Unescape(body), commandId)
  }


  /** check_error(): any reply status but '0000' raises DriverError. */
  function CheckError(d: ReplyData): (r: Result<Unit>)
    ensures r.Ok? <==> d.Final? && d.replyStatus == "0000"
    ensures d.Final? && r.Err? ==> r.error == Raise(DriverError)
  {
    if d.Intermediate? then Err(Raise(AttributeError))
    else if d.replyStatus != "0000" then Err(Raise(DriverError))
    else Ok(Unit)
  }

  /** A frame id popped off the reply is one character at most, never the four of '0x80'. */
  lemma FrameNeverIntermediate(u: string, commandId: int)
    ensures ParseFrame(u, commandId) != Ok(Intermediate)
  {
    hide ParseStatuses;
    assert |"0x80"| == 4;
  }

  /** frame_id == '0x80' compares one character with four: no reply is ever intermediate. */
  lemma NeverIntermediate(s: string, commandId: int)
    ensures ParseReply(s, commandId) != Ok(Intermediate)
  {
    hide ParseFrame;
    var body := DropTail(s, 4);
    if Checksum(body) == TailOf(s, 4) {
      FrameNeverIntermediate(Unescape(body), commandId);
    }
  }

  /** A reply whose last four characters are not the checksum of the rest raises AssertionError. */
  lemma ChecksumMismatch(body: string, tail: string)
    requires |tail| == 4 && tail != Checksum(body)
    ensures forall id :: ParseReply(body + tail, id) == Err(Raise(AssertionError))
  {
    assert DropTail(body + tail, 4) == body && TailOf(body + tail, 4) == tail;
  }

  /** A reply body whose byte sum reaches 0x10000 can never pass: its checksum has five digits where four are compared. */
  lemma LongSumNeverPasses(s: string, commandId: int)
    requires Sum(DropTail(s, 4)) >= 0x10000
    ensures ParseReply(s, commandId) == Err(Raise(AssertionError))
  {
    ChecksumField(DropTail(s, 4));
  }

  /** Without an ESC, unescape() changes nothing. */
  lemma {:induction false} UnescapeFromNoEsc(s: string, k: nat)
    requires k <= |SpecialChars| && Esc !in s
    ensures UnescapeFrom(s, k) == s
    decreases |SpecialChars| - k
  {
    if k < |SpecialChars| {
      ReplaceAbsent(s, [Esc, SpecialChars[k]], [SpecialChars[k]]);
      UnescapeFromNoEsc(s, k + 1);
    }
  }

  /** Popping |a| characters off a + b gives a and leaves b. */
  lemma SliceApart(a: string, b: string)
    ensures Slice(a + b, 0, |a|) == a && Slice(a + b, |a|, |a + b|) == b
  {
    assert (a + b)[..|a|] == a && (a + b)[|a|..] == b;
  }

  /** The end of a reply: the reply status, a separator, a reserved byte, the fields and ETX. */
  function TailFrame(rs: string, r2: char, fields: string): string
  {
    rs + ([Fld] + ([r2] + (fields + [Etx])))
  }

  /** A reply after its frame id: printer status, separator, fiscal status, separator, a reserved byte, then the tail. */
  function StatusFrame(ps: string, fs: string, r1: char, rs: string, r2: char, fields: string): string
  {
    ps + ([Fld] + (fs + ([Fld] + ([r1] + TailFrame(rs, r2, fields)))))
  }

  /** The reply the printer sends, before the checksum, when nothing in it needs escaping. */
  function PlainReply(id: char, ps: string, fs: string, r1: char, rs: string, r2: char, fields: string): string
  {
    [Stx] + ([id] + StatusFrame(ps, fs, r1, rs, r2, fields))
  }

  /** The reply status, the third separator, the reserved byte and the fields, ETX dropped. */
  lemma TailOfPlain(rs: string, r2: char, fields: string, ps: int, fs: int)
    requires |rs| == 2
    ensures ParseTail(TailFrame(rs, r2, fields), ps, fs)
         == Ok(Final(ps, fs, FormatHex(rs[0] as int, 2) + FormatHex(rs[1] as int, 2), Split(fields, Fld)))
  {
    SliceApart(rs, [Fld] + ([r2] + (fields + [Etx])));
    SliceApart([Fld], [r2] + (fields + [Etx]));
    SliceApart([r2], fields + [Etx]);
    assert DropTail(fields + [Etx], 1) == fields;
  }

  /** The fiscal status with its separator, a reserved byte, then the tail of a plain reply. */
  lemma FiscalOfPlain(fs: string, r1: char, rs: string, r2: char, fields: string, ps: int)
    requires |fs| == 2 && |rs| == 2
    ensures ParseFiscal(fs + ([Fld] + ([r1] + TailFrame(rs, r2, fields))), ps)
         == Ok(Final(ps, fs[0] as int * 256 + fs[1] as int,
                     FormatHex(rs[0] as int, 2) + FormatHex(rs[1] as int, 2), Split(fields, Fld)))
  {
    hide ParseTail, Split, FormatHex;
    var tail := TailFrame(rs, r2, fields);
    SliceApart(fs, [Fld] + ([r1] + tail));
    SliceApart([Fld], [r1] + tail);
    SliceApart([r1], tail);
    TailOfPlain(rs, r2, fields, ps, fs[0] as int * 256 + fs[1] as int);
  }

  /** The two statuses with their separators, then the rest of a plain reply. */
  lemma StatusesOfPlain(ps: string, fs: string, r1: char, rs: string, r2: char, fields: string)
    requires |ps| == 2 && |fs| == 2 && |rs| == 2
    ensures ParseStatuses(StatusFrame(ps, fs, r1, rs, r2, fields))
         == Ok(Final(ps[0] as int * 256 + ps[1] as int, fs[0] as int * 256 + fs[1] as int,
                     FormatHex(rs[0] as int, 2) + FormatHex(rs[1] as int, 2), Split(fields, Fld)))
  {
    hide ParseFiscal, ParseTail, Split, FormatHex;
    var tail := TailFrame(rs, r2, fields);
    SliceApart(ps, [Fld] + (fs + ([Fld] + ([r1] + tail))));
    SliceApart([Fld], fs + ([Fld] + ([r1] + tail)));
    FiscalOfPlain(fs, r1, rs, r2, fields, ps[0] as int * 256 + ps[1] as int);
  }
  /**
   * A reply with no ESC in it, checksummed as the printer does, parses into
   * its statuses and the fields between the separators.
   */
  lemma PlainReplyParses(commandId: int, ps: string, fs: string, r1: char, rs: string, r2: char, fields: string)
    requires 0 <= commandId < 256 && |ps| == 2 && |fs| == 2 && |rs| == 2
    requires var body := PlainReply(commandId as char, ps, fs, r1, rs, r2, fields);
      Esc !in body && Sum(body) < 0x10000
    ensures var body := PlainReply(commandId as char, ps, fs, r1, rs, r2, fields);
      ParseReply(body + Checksum(body), commandId)
        == Ok(Final(ps[0] as int * 256 + ps[1] as int, fs[0] as int * 256 + fs[1] as int,
                    FormatHex(rs[0] as int, 2) + FormatHex(rs[1] as int, 2), Split(fields, Fld)))
  {
    var body := PlainReply(commandId as char, ps, fs, r1, rs, r2, fields);
    hide ParseFrame, PlainReply, Sum, UnescapeFrom, FormatHex, Split;
    var s := body + Checksum(body);
    ChecksumBytes(body);
    assert DropTail(s, 4) == body && TailOf(s, 4) == Checksum(body);
    UnescapeFromNoEsc(body, 0);
    FrameOfPlain(commandId, ps, fs, r1, rs, r2, fields);
  }

  /** The unescaped plain reply: STX, the id, and the statuses and fields up to ETX. */
  lemma FrameOfPlain(commandId: int, ps: string, fs: string, r1: char, rs: string, r2: char, fields: string)
    requires 0 <= commandId < 256 && |ps| == 2 && |fs| == 2 && |rs| == 2
    ensures ParseFrame(PlainReply(commandId as char, ps, fs, r1, rs, r2, fields), commandId)
         == Ok(Final(ps[0] as int * 256 + ps[1] as int, fs[0] as int * 256 + fs[1] as int,
                     FormatHex(rs[0] as int, 2) + FormatHex(rs[1] as int, 2), Split(fields, Fld)))
  {
    hide ParseStatuses, FormatHex, Split;
    var u2 := StatusFrame(ps, fs, r1, rs, r2, fields);
    SliceApart([Stx], [commandId as char] + u2);
    SliceApart([commandId as char], u2);
    assert u2[|u2| - 1] == Etx;
    StatusesOfPlain(ps, fs, r1, rs, r2, fields);
  }

  // ---------------------------------------------------------------------
  // The reply object

  /** A reply being parsed: the unparsed rest of the string, and what has been popped off it so far. */
  class Reply {
    var text: string
    var intermediate: bool
    var printerStatus: int
    var fiscalStatus: int
    var replyStatus: string
    var fields: seq<string>

    constructor()
      ensures text == [] && !intermediate && replyStatus == [] && fields == []
    {
      text, intermediate := [], false;
      printerStatus, fiscalStatus := 0, 0;
      replyStatus, fields := [], [];
    }

    /** What the reply holds once parsed. */
    function Data(): ReplyData
      reads this
    {
      if intermediate then Intermediate else Final(printerStatus, fiscalStatus, replyStatus, fields)
    }

    /** The parse ended as the specification says: the same error, or this reply holding the same data. */
    predicate Agrees(r: Result<Unit>, spec: Result<ReplyData>)
      reads this
    {
      (r.Ok? <==> spec.Ok?) && (r.Err? ==> r.error == spec.error) && (r.Ok? ==> Data() == spec.value)
    }

    /** pop(size): the first size characters of the string, which loses them. */
    method Pop(size: nat) returns (head: string)
      modifies this
      ensures head == Slice(old(text), 0, size) && text == Slice(old(text), size, |old(text)|)
      ensures intermediate == old(intermediate) && printerStatus == old(printerStatus)
      ensures fiscalStatus == old(fiscalStatus) && replyStatus == old(replyStatus) && fields == old(fields)
    {
      head := Slice(text, 0, size);
      text := Slice(text, size, |text|);
    }

    /** The reply status, the third separator, the reserved byte, and the fields up to ETX. */
    method PopTail() returns (r: Result<Unit>)
      requires !intermediate
      modifies this
      ensures Agrees(r, ParseTail(old(text), old(printerStatus), old(fiscalStatus)))
    {
      hide Split, FormatHex, DropTail;
      var head := Pop(2);
      var status := StatusHex(head);
      if status.Err? {
        return Err(status.error);
      }
      replyStatus := status.value;
      head := Pop(1);
      if head != [Fld] {
        return Err(Raise(AssertionError));
      }
      head := Pop(1);
      fields := Split(DropTail(text, 1), Fld);
      return Ok(Unit);
    }

    /** The fiscal status, the second separator and a reserved byte, then the tail. */
    method PopFiscal() returns (r: Result<Unit>)
      requires !intermediate
      modifies this
      ensures Agrees(r, ParseFiscal(old(text), old(printerStatus)))
    {
      var head := Pop(2);
      var fs := Unpack16(head);
      if fs.Err? {
        return Err(fs.error);
      }
      fiscalStatus := fs.value;
      head := Pop(1);
      if head != [Fld] {
        return Err(Raise(AssertionError));
      }
      head := Pop(1);
      r := PopTail();
    }

    /** The printer status and the first separator, then the rest. */
    method PopStatuses() returns (r: Result<Unit>)
      requires !intermediate
      modifies this
      ensures Agrees(r, ParseStatuses(old(text)))
    {
      var head := Pop(2);
      var ps := Unpack16(head);
      if ps.Err? {
        return Err(ps.error);
      }
      printerStatus := ps.value;
      head := Pop(1);
      if head != [Fld] {
        return Err(Raise(AssertionError));
      }
      r := PopFiscal();
    }

    /**
     * Reply.__init__: check the checksum of the escaped string, unescape it,
     * check STX, the frame id and ETX, and pop the statuses and fields.
     */
    method Parse(s: string, commandId: int) returns (r: Result<Unit>)
      modifies this
      ensures Agrees(r, ParseReply(s, commandId))
    {
      var checksum := TailOf(s, 4);
      text := DropTail(s, 4);
      if Checksum(text) != checksum {
        return Err(Raise(AssertionError));
      }
      text := Unescape(text);
      r := PopFrame(commandId);
    }

    /** The checks of Reply.__init__ on the unescaped string: STX, the frame id, ETX; then the statuses. */
    method PopFrame(commandId: int) returns (r: Result<Unit>)
      modifies this
      ensures Agrees(r, ParseFrame(old(text), commandId))
    {
      var head := Pop(1);
      if head != [Stx] {
        return Err(Raise(AssertionError));
      }
      var frameId := Pop(1);
      if frameId == "0x80" {
        // The frame id is one character and '0x80' four: the intermediate branch never runs.
        assert false;
      }
      intermediate := false;
      var expected := Chr(commandId);
      if expected.Err? {
        return Err(expected.error);
      }
      if frameId != [expected.value] {
        return Err(Raise(AssertionError));
      }
      if text == [] {
        return Err(Raise(IndexError));
      }
      if text[|text| - 1] != Etx {
        return Err(Raise(AssertionError));
      }
      r := PopStatuses();
    }
  }

  /** Reply(string, command_id): a new reply holding what the specification parses, or the error it raises. */
  method NewReply(s: string, commandId: int) returns (r: Result<Reply>)
    ensures r.Ok? <==> ParseReply(s, commandId).Ok?
    ensures r.Err? ==> r.error == ParseReply(s, commandId).error
    ensures r.Ok? ==> fresh(r.value) && r.value.Data() == ParseReply(s, commandId).value
  {
    var reply := new Reply();
    var parsed := reply.Parse(s, commandId);
    if parsed.Err? {
      return Err(parsed.error);
    }
    return Ok(reply);
  }

  // ---------------------------------------------------------------------
  // Reading replies and sending commands

  /**
   * What a read that may wait forever ends with: a result, or a loop that
   * keeps reading an empty port and never returns.
   */
  datatype Outcome<T> = Returns(result: Result<T>) | Spins

  /** What an exchange with the printer does: its outcome, the script of replies left, and the bytes sent. */
  datatype Exchange<T> = Exchange(outcome: Outcome<T>, left: seq<Serial.Reply>, sent: seq<byte>)

  /**
   * The loop of _read_reply: one byte at a time onto the reply, until an ETX
   * that does not follow an ESC; an ETX first of all has no character
   * before it and raises IndexError.
   */
  function ReadUntilEtxFrom(p: seq<Serial.Reply>, reply: string): (r: (Outcome<string>, seq<Serial.Reply>))
    ensures p == [] ==> r.0.Spins?
    ensures r.0.Spins? ==> r.1 == []
    ensures r.0.Returns? ==> |r.1| < |p|
    ensures r.0.Returns? && r.0.result.Ok? ==>
      var v := r.0.result.value;
      |v| >= 2 && v[|v| - 1] == Etx && v[|v| - 2] != Esc
    decreases |p|
  {
    if p == [] then (Spins, p)
    else if p[0].Silence? then ReadUntilEtxFrom(p[1..], reply)
    else
      var c := p[0].b as char;
      var reply' := reply + [c];
      if c != Etx then ReadUntilEtxFrom(p[1..], reply')
      else if |reply'| < 2 then (Returns(Err(Raise(IndexError))), p[1..])
      else if reply'[|reply'| - 2] != Esc then (Returns(Ok(reply')), p[1..])
      else ReadUntilEtxFrom(p[1..], reply')
  }

  /** What the device sends is its first step's byte, if any, then the rest. */
  lemma HeardStep(p: seq<Serial.Reply>)
    requires p != []
    ensures Heard(p) == (if p[0].Silence? then [] else [p[0].b as char]) + Heard(p[1..])
  {
  }

  /** The read loop loses nothing: the reply it returns is what it started with and what it heard, in order. */
  lemma {:induction false} ReadUntilKeepsOrder(p: seq<Serial.Reply>, reply: string)
    ensures var r := ReadUntilEtxFrom(p, reply);
      r.0.Returns? && r.0.result.Ok? ==> reply + Heard(p) == r.0.result.value + Heard(r.1)
    decreases |p|
  {
    hide *;
    if p != [] {
      ReadUntilStep(p, reply);
      HeardStep(p);
      if p[0].Silence? {
        ReadUntilKeepsOrder(p[1..], reply);
        assert reply + Heard(p) == reply + Heard(p[1..]);
      } else {
        var reply' := reply + [p[0].b as char];
        ReadUntilKeepsOrder(p[1..], reply');
        assert reply + Heard(p) == reply' + Heard(p[1..]);
      }
    }
  }

  /**
   * _read_reply: the ACK, the reply up to its ETX, the four checksum
   * characters, then an ACK back to the printer and the parse.
   */
  function ReadReplyFrom(p: seq<Serial.Reply>, commandId: int): (x: Exchange<ReplyData>)
    ensures x.outcome.Returns? && x.outcome.result.Ok? ==> |x.left| < |p|
  {
    var ack := Bytes2Str(ReadBytes(p, 1));
    var p1 := AfterRead(p, 1);
    if ack != [Ack] then Exchange(Returns(Err(Raise(AssertionError))), p1, [])
    else
      var read := ReadUntilEtxFrom(p1, "");
      if read.0.Spins? then Exchange(Spins, read.1, [])
      else if read.0.result.Err? then Exchange(Returns(Err(read.0.result.error)), read.1, [])
      else
        var reply := read.0.result.value + Bytes2Str(ReadBytes(read.1, 4));
        Exchange(Returns(ParseReply(reply, commandId)), AfterRead(read.1, 4), [AckByte])
  }

  /** The loop of _send_command: replies are read while they are intermediate. */
  function ReadFinalFrom(p: seq<Serial.Reply>, commandId: int): (x: Exchange<ReplyData>)
    decreases |p|
  {
    var first := ReadReplyFrom(p, commandId);
    if first.outcome == Returns(Ok(Intermediate)) then
      var rest := ReadFinalFrom(first.left, commandId);
      Exchange(rest.outcome, rest.left, first.sent + rest.sent)
    else first
  }

  /** check_error() on the final reply. */
  function Checked(o: Outcome<ReplyData>): (r: Outcome<ReplyData>)
    ensures r.Spins? <==> o.Spins?
    ensures o.Returns? && o.result.Err? ==> r == o
    ensures o.Returns? && o.result.Ok? && o.result.value.Final? ==>
      r == if o.result.value.replyStatus == "0000" then o else Returns(Err(Raise(DriverError)))
  {
    if o.Returns? && o.result.Ok? && CheckError(o.result.value).Err? then Returns(Err(CheckError(o.result.value).error))
    else o
  }

  /**
   * _send_command(command, extension, *args): build the package, write it,
   * read up to the final reply and check its status; the second component is
   * the command id afterwards.
   */
  function SendCommandFrom(p: seq<Serial.Reply>, lastId: int, command: string, extension: string, args: seq<string>)
    : (Exchange<ReplyData>, int)
  {
    var (package, id) := PackageFrom(lastId, command, extension, args);
    if package.Err? then (Exchange(Returns(Err(package.error)), p, []), id)
    else if !IsByteString(package.value) then (Exchange(Returns(Err(Raise(ValueError))), p, []), id)
    else
      var x := ReadFinalFrom(p, id);
      (Exchange(Checked(x.outcome), x.left, Str2Bytes(package.value).value + x.sent), id)
  }

  /** No arguments, no argument fields. */
  lemma ArgFieldsNone()
    ensures ArgFields([]) == []
  {
  }

  /** The argument fields grow by one escaped argument at a time. */
  lemma ArgFieldsStep(args: seq<string>, k: nat)
    requires k < |args|
    ensures ArgFields(args[..k + 1]) == ArgFields(args[..k]) + [Fld] + Escape(args[k])
  {
    assert args[..k + 1][..k] == args[..k];
  }

  /** A command or extension that is not a hexadecimal code fails before the id moves. */
  lemma PackageFromBadCode(lastId: int, command: string, extension: string, args: seq<string>)
    requires RawCode(command).Err? || RawCode(extension).Err?
    ensures PackageFrom(lastId, command, extension, args) == (Err(Raise(ValueError)), lastId)
  {
  }

  /** With both codes read, the id moves on and the package is the framed body and its checksum. */
  lemma PackageFromCodes(lastId: int, command: string, extension: string, args: seq<string>)
    requires RawCode(command).Ok? && RawCode(extension).Ok?
    ensures PackageFrom(lastId, command, extension, args)
         == if 0 <= lastId + 1 < 256 then
              var package := [Stx, (lastId + 1) as char] +
                (Escape(RawCode(command).value) + [Fld] + Escape(RawCode(extension).value) + ArgFields(args)) + [Etx];
              (Ok(package + Checksum(package)), lastId + 1)
            else (Err(Raise(ValueError)), lastId + 1)
  {
  }

  /** A package that is built and can be written goes out before whatever the reply loop sends. */
  lemma SendCommandSent(p: seq<Serial.Reply>, lastId: int, command: string, extension: string, args: seq<string>)
    requires PackageFrom(lastId, command, extension, args).0.Ok?
    requires IsByteString(PackageFrom(lastId, command, extension, args).0.value)
    ensures var x := ReadFinalFrom(p, lastId + 1);
      SendCommandFrom(p, lastId, command, extension, args)
        == (Exchange(Checked(x.outcome), x.left, Str2Bytes(PackageFrom(lastId, command, extension, args).0.value).value + x.sent),
            lastId + 1)
  {
  }

  /** Since no reply is intermediate, one reply is all _send_command ever reads. */
  lemma OneReplyRead(p: seq<Serial.Reply>, commandId: int)
    ensures ReadFinalFrom(p, commandId) == ReadReplyFrom(p, commandId)
  {
    var first := ReadReplyFrom(p, commandId);
    if first.outcome == Returns(Ok(Intermediate)) {
      NeverIntermediate(ReadUntilEtxFrom(AfterRead(p, 1), "").0.result.value + Bytes2Str(ReadBytes(ReadUntilEtxFrom(AfterRead(p, 1), "").1, 4)), commandId);
      assert false;
    }
  }

  /** An ETX right after an ESC is data: the read goes on past it. */
  lemma EscapedEtxReadOn(reply: string, q: seq<Serial.Reply>)
    ensures ReadUntilEtxFrom([Byte(Esc as int as byte), Byte(Etx as int as byte)] + q, reply)
         == ReadUntilEtxFrom(q, reply + [Esc, Etx])
  {
    var p := [Byte(Esc as int as byte), Byte(Etx as int as byte)] + q;
    assert p[1..] == [Byte(Etx as int as byte)] + q && p[1..][1..] == q;
    assert reply + [Esc] + [Etx] == reply + [Esc, Etx];
  }

  /** A printer that ends its data with ESC sends ESC ESC ETX, and that ETX is read as data too. */
  lemma EscapedEscHidesEtx(reply: string, q: seq<Serial.Reply>)
    ensures ReadUntilEtxFrom([Byte(Esc as int as byte), Byte(Esc as int as byte), Byte(Etx as int as byte)] + q, reply)
         == ReadUntilEtxFrom(q, reply + [Esc, Esc, Etx])
  {
    var p := [Byte(Esc as int as byte), Byte(Esc as int as byte), Byte(Etx as int as byte)] + q;
    assert p[1..] == [Byte(Esc as int as byte), Byte(Etx as int as byte)] + q;
    EscapedEtxReadOn(reply + [Esc], q);
    assert reply + [Esc] + [Esc, Etx] == reply + [Esc, Esc, Etx];
  }

  /** The replies of a device sending a then b. */
  lemma RepliesAppend(a: string, b: string)
    requires IsByteString(a) && IsByteString(b)
    ensures IsByteString(a + b) && Replies(a + b) == Replies(a) + Replies(b)
  {
  }

  /** Reading n bytes off a device that sends s of length n, without pause, yields s and leaves the rest. */
  lemma {:induction false} ReadAll(s: string, q: seq<Serial.Reply>)
    requires IsByteString(s)
    ensures Bytes2Str(ReadBytes(Replies(s) + q, |s|)) == s
    ensures AfterRead(Replies(s) + q, |s|) == q
    decreases |s|
  {
    var p := Replies(s) + q;
    if s != [] {
      assert p[1..] == Replies(s[1..]) + q;
      ReadAll(s[1..], q);
      assert ReadBytes(p, |s|) == [p[0].b] + ReadBytes(p[1..], |s| - 1);
      assert Bytes2Str(ReadBytes(p, |s|)) == [s[0]] + s[1..];
    } else {
      assert p == q;
    }
  }

  /** A device sending a non-empty s sends its first character, then the rest. */
  lemma RepliesCons(s: string)
    requires IsByteString(s) && s != []
    ensures Replies(s) == [Byte(s[0] as int as byte)] + Replies(s[1..])
  {
    assert Replies(s)[1..] == Replies(s[1..]);
  }

  /** One step of the loop of _read_reply, on a script that is not used up. */
  lemma ReadUntilStep(q: seq<Serial.Reply>, reply: string)
    requires q != []
    ensures ReadUntilEtxFrom(q, reply)
         == if q[0].Silence? then ReadUntilEtxFrom(q[1..], reply)
            else if q[0].b as char != Etx then ReadUntilEtxFrom(q[1..], reply + [q[0].b as char])
            else if |reply + [Etx]| < 2 then (Returns(Err(Raise(IndexError))), q[1..])
            else if (reply + [Etx])[|reply + [Etx]| - 2] != Esc then (Returns(Ok(reply + [Etx])), q[1..])
            else ReadUntilEtxFrom(q[1..], reply + [Etx])
  {
  }

  /** read(1) on a script that is not used up: its first byte, or nothing for a timeout; either way one step is used. */
  lemma ReadOne(q: seq<Serial.Reply>)
    requires q != []
    ensures AfterRead(q, 1) == q[1..]
    ensures Bytes2Str(ReadBytes(q, 1)) == if q[0].Silence? then [] else [q[0].b as char]
  {
    if q[0].Byte? {
      assert ReadBytes(q, 1) == [q[0].b];
    }
  }

  /** A byte other than ETX goes onto the reply and the loop of _read_reply goes on. */
  lemma ReadUntilData(b: byte, q: seq<Serial.Reply>, reply: string)
    requires b as char != Etx
    ensures ReadUntilEtxFrom([Byte(b)] + q, reply) == ReadUntilEtxFrom(q, reply + [b as char])
  {
    assert ([Byte(b)] + q)[1..] == q;
  }

  /** An ETX after a character other than ESC ends the loop of _read_reply. */
  lemma ReadUntilEnd(q: seq<Serial.Reply>, reply: string)
    requires |reply| >= 1 && reply[|reply| - 1] != Esc
    ensures ReadUntilEtxFrom([Byte(Etx as int as byte)] + q, reply) == (Returns(Ok(reply + [Etx])), q)
  {
    assert ([Byte(Etx as int as byte)] + q)[1..] == q;
    assert (reply + [Etx])[|reply + [Etx]| - 2] == reply[|reply| - 1];
  }

  /** Characters with no ETX among them, then ETX, are read to the end when the last of them is not ESC. */
  lemma {:induction false} ReadUntilPlainEtx(pre: string, s: string, q: seq<Serial.Reply>)
    requires IsByteString(s) && Etx !in s && |pre + s| >= 1 && (pre + s)[|pre + s| - 1] != Esc
    ensures IsByteString(s + [Etx])
    ensures ReadUntilEtxFrom(Replies(s + [Etx]) + q, pre) == (Returns(Ok(pre + s + [Etx])), q)
    decreases |s|
  {
    hide Replies, ReadUntilEtxFrom;
    RepliesCons(s + [Etx]);
    if s == [] {
      assert (s + [Etx])[1..] == [] && pre + s == pre;
      assert Replies(s + [Etx]) + q == [Byte(Etx as int as byte)] + q;
      ReadUntilEnd(q, pre);
    } else {
      assert (s + [Etx])[0] == s[0] && (s + [Etx])[1..] == s[1..] + [Etx];
      assert Replies(s + [Etx]) + q == [Byte(s[0] as int as byte)] + (Replies(s[1..] + [Etx]) + q);
      ReadUntilData(s[0] as int as byte, Replies(s[1..] + [Etx]) + q, pre);
      assert pre + [s[0]] + s[1..] == pre + s;
      ReadUntilPlainEtx(pre + [s[0]], s[1..], q);
    }
  }

  /**
   * A printer that acknowledges, then sends a reply whose only ETX is its last
   * character and whose four checksum characters follow: _read_reply reads
   * exactly that reply, sends ACK back, and parses it.
   */
  lemma ReadReplyWhole(body: string, tail: string, q: seq<Serial.Reply>, commandId: int)
    requires IsByteString(body) && IsByteString(tail) && |tail| == 4
    requires |body| >= 2 && body[|body| - 1] == Etx && body[|body| - 2] != Esc && Etx !in body[..|body| - 1]
    ensures IsByteString(body + tail)
    ensures ReadReplyFrom([Byte(AckByte)] + Replies(body + tail) + q, commandId)
         == Exchange(Returns(ParseReply(body + tail, commandId)), q, [AckByte])
  {
    hide ParseReply, Replies, ReadUntilEtxFrom, Checksum, Unescape;
    var p := [Byte(AckByte)] + Replies(body + tail) + q;
    var data := body[..|body| - 1];
    assert body == data + [Etx];
    RepliesAppend(body, tail);
    assert ReadBytes(p, 1) == [AckByte] && Bytes2Str([AckByte]) == [Ack];
    assert AfterRead(p, 1) == Replies(data + [Etx]) + (Replies(tail) + q);
    ReadUntilPlainEtx("", data, Replies(tail) + q);
    assert "" + data + [Etx] == body;
    ReadAll(tail, q);
  }

  /** Two hexadecimal digits read "00" only for zero. */
  lemma HexZero(n: nat)
    ensures FormatHex(n, 2) == "00" <==> n == 0
  {
    if FormatHex(n, 2) == "00" {
      FormatHexRoundTrip(n, 2);
      assert HexValue("00") == HexValue("0") * 16 + 0;
    }
    if n == 0 {
      assert NatToHex(0) == "0";
    }
  }

  /** The reply status reads '0000' exactly when both status bytes are zero. */
  lemma StatusZero(a: char, b: char)
    ensures FormatHex(a as int, 2) + FormatHex(b as int, 2) == "0000" <==> a == '\0' && b == '\0'
  {
    hide *;
    var x, y := FormatHex(a as int, 2), FormatHex(b as int, 2);
    HexZero(a as int);
    HexZero(b as int);
    if x + y == "0000" {
      assert |x| >= 2 && |y| >= 2 && |x + y| == 4;
      assert x == (x + y)[..2] && y == (x + y)[2..];
    }
  }

  /** The ESC-free reply of a printer to command id: well-formed for the read loop and the parser. */
  predicate PlainAnswer(id: int, ps: string, fs: string, r1: char, rs: string, r2: char, fields: string)
  {
    && 0 <= id < 256 && |ps| == 2 && |fs| == 2 && |rs| == 2
    && var body := PlainReply(id as char, ps, fs, r1, rs, r2, fields);
      IsByteString(body) && Esc !in body && Etx !in body[..|body| - 1] && Sum(body) < 0x10000
  }

  /** A plain reply ends with ETX. */
  lemma PlainReplyEnds(id: char, ps: string, fs: string, r1: char, rs: string, r2: char, fields: string)
    ensures var body := PlainReply(id, ps, fs, r1, rs, r2, fields);
      |body| >= 2 && body[|body| - 1] == Etx
  {
  }

  /** The checksum is hexadecimal digits: four of them below 0x10000. */
  lemma ChecksumBytes(body: string)
    ensures IsByteString(Checksum(body))
    ensures Sum(body) < 0x10000 ==> |Checksum(body)| == 4
  {
    ChecksumField(body);
    FormatHexRoundTrip(Sum(body), 4);
  }

  /** What the read loop and the parser ask of a plain answer. */
  lemma PlainAnswerParts(id: int, ps: string, fs: string, r1: char, rs: string, r2: char, fields: string)
    requires PlainAnswer(id, ps, fs, r1, rs, r2, fields)
    ensures var body := PlainReply(id as char, ps, fs, r1, rs, r2, fields);
      && 0 <= id < 256 && |ps| == 2 && |fs| == 2 && |rs| == 2
      && IsByteString(body) && IsByteString(Checksum(body)) && |Checksum(body)| == 4
      && Esc !in body && Sum(body) < 0x10000
      && |body| >= 2 && body[|body| - 1] == Etx && body[|body| - 2] != Esc && Etx !in body[..|body| - 1]
  {
    var body := PlainReply(id as char, ps, fs, r1, rs, r2, fields);
    hide Checksum, Sum, PlainReply, FormatHex;
    PlainReplyEnds(id as char, ps, fs, r1, rs, r2, fields);
    ChecksumBytes(body);
    assert body[|body| - 2] in body;
  }

  /**
   * _send_command against a printer that acknowledges and answers with a
   * plain reply: the package goes out, then ACK, the script is used up to the
   * end of the reply, and the result is the reply's data or, unless both
   * status bytes are zero, DriverError.
   */
  lemma SendCommandAnswered(lastId: int, command: string, extension: string, args: seq<string>,
                            ps: string, fs: string, r1: char, rs: string, r2: char, fields: string,
                            q: seq<Serial.Reply>)
    requires PackageFrom(lastId, command, extension, args).0.Ok?
    requires IsByteString(PackageFrom(lastId, command, extension, args).0.value)
    requires PlainAnswer(lastId + 1, ps, fs, r1, rs, r2, fields)
    ensures var body := PlainReply((lastId + 1) as char, ps, fs, r1, rs, r2, fields);
      IsByteString(body + Checksum(body)) &&
      var x := SendCommandFrom([Byte(AckByte)] + Replies(body + Checksum(body)) + q,
                               lastId, command, extension, args);
      var data := Final(ps[0] as int * 256 + ps[1] as int, fs[0] as int * 256 + fs[1] as int,
                        FormatHex(rs[0] as int, 2) + FormatHex(rs[1] as int, 2), Split(fields, Fld));
      x.1 == lastId + 1 && x.0.left == q &&
      x.0.sent == Str2Bytes(PackageFrom(lastId, command, extension, args).0.value).value + [AckByte] &&
      x.0.outcome == (if rs == ['\0', '\0'] then Returns(Ok(data)) else Returns(Err(Raise(DriverError))))
  {
    hide *;
    var id := lastId + 1;
    var body := PlainReply(id as char, ps, fs, r1, rs, r2, fields);
    var tail := Checksum(body);
    PlainAnswerParts(id, ps, fs, r1, rs, r2, fields);
    RepliesAppend(body, tail);
    var script := [Byte(AckByte)] + Replies(body + tail) + q;
    SendCommandSent(script, lastId, command, extension, args);
    ReadReplyWhole(body, tail, q, id);
    PlainReplyParses(id, ps, fs, r1, rs, r2, fields);
    OneReplyRead(script, id);
    StatusZero(rs[0], rs[1]);
    assert rs == ['\0', '\0'] <==> rs[0] == '\0' && rs[1] == '\0';
  }

  // ---------------------------------------------------------------------
  // The driver

  /** The reply object a call hands back agrees with the specification's outcome. */
  predicate Matches(o: Outcome<Reply>, spec: Outcome<ReplyData>)
    reads if o.Returns? && o.result.Ok? then {o.result.value} else {}
  {
    && (o.Spins? <==> spec.Spins?)
    && (o.Returns? && spec.Returns? ==>
         && (o.result.Ok? <==> spec.result.Ok?)
         && (o.result.Err? && spec.result.Err? ==> o.result.error == spec.result.error)
         && (o.result.Ok? && spec.result.Ok? ==> o.result.value.Data() == spec.result.value))
  }

  /** The FB II driver: the serial line and the id of the last command sent. */
  class FBII {
    const serial: SerialBase
    var commandId: int

    /** FBII(port): the default serial framing, and ids starting after 138. */
    constructor(port: Port)
      ensures serial.port == port && commandId == 138
      ensures fresh(serial)
    {
      serial := new SerialBase.Default(port);
      commandId := 138;
    }

    /** _get_next_command_id(): the next id, as a character. */
    method NextCommandId() returns (r: Result<char>)
      modifies this
      ensures commandId == old(commandId) + 1 && r == Chr(commandId)
    {
      commandId := commandId + 1;
      r := Chr(commandId);
    }

    /** _get_package(command, extension, args): the escaped frame between STX, the new id and ETX, then its checksum. */
    method GetPackage(command: string, extension: string, args: seq<string>) returns (r: Result<string>)
      modifies this
      ensures (r, commandId) == PackageFrom(old(commandId), command, extension, args)
    {
      hide *;
      var cmd := RawCode(command);
      if cmd.Err? {
        PackageFromBadCode(commandId, command, extension, args);
        return Err(cmd.error);
      }
      var ext := RawCode(extension);
      if ext.Err? {
        PackageFromBadCode(commandId, command, extension, args);
        return Err(ext.error);
      }
      PackageFromCodes(commandId, command, extension, args);
      var frame := Escape(cmd.value) + [Fld] + Escape(ext.value);
      assert args[..0] == [];
      ArgFieldsNone();
      for k := 0 to |args|
        invariant frame == Escape(cmd.value) + [Fld] + Escape(ext.value) + ArgFields(args[..k])
        invariant commandId == old(commandId)
      {
        ArgFieldsStep(args, k);
        frame := frame + [Fld] + Escape(args[k]);
      }
      assert args[..|args|] == args;
      var id := NextCommandId();
      if id.Err? {
        return Err(id.error);
      }
      var package := [Stx, id.value] + frame + [Etx];
      return Ok(package + Checksum(package));
    }

    /**
     * _read_reply(): the ACK, the reply up to an ETX that does not follow an
     * ESC, the checksum, an ACK back, and the parsed reply.
     */
    method ReadReply() returns (o: Outcome<Reply>)
      modifies serial.port
      ensures var x := ReadReplyFrom(old(serial.port.pending), commandId);
        serial.port.pending == x.left && serial.port.written == old(serial.port.written) + x.sent && Matches(o, x.outcome)
      ensures o.Returns? && o.result.Ok? ==> fresh(o.result.value)
    {
      hide ReadUntilEtxFrom, ParseReply, Bytes2Str, ReadBytes, AfterRead;
      var ack := serial.Read(1);
      if ack != [Ack] {
        return Returns(Err(Raise(AssertionError)));
      }
      ghost var start := serial.port.pending;
      var reply := "";
      while true
        invariant serial.port.written == old(serial.port.written)
        invariant ReadUntilEtxFrom(serial.port.pending, reply) == ReadUntilEtxFrom(start, "")
        decreases |serial.port.pending|
      {
        if serial.port.pending == [] {
          // Every read of an empty port returns '': the source never leaves this loop.
          return Spins;
        }
        ghost var q := serial.port.pending;
        ReadOne(q);
        ReadUntilStep(q, reply);
        ghost var before := reply;
        var c := serial.Read(1);
        reply := reply + c;
        assert q[0].Silence? ==> reply == before;
        if c == [Etx] {
          if |reply| < 2 {
            return Returns(Err(Raise(IndexError)));
          }
          if reply[|reply| - 2] != Esc {
            break;
          }
        }
      }
      var tail := serial.Read(4);
      reply := reply + tail;
      var w := serial.Write([Ack]);
      var parsed := NewReply(reply, commandId);
      return Returns(parsed);
    }

    /**
     * _send_command(command, extension, *args): write the package, read
     * replies while they are intermediate, and check the status of the last.
     */
    method SendCommand(command: string, extension: string, args: seq<string>) returns (o: Outcome<Reply>)
      modifies this, serial.port
      ensures var x := SendCommandFrom(old(serial.port.pending), old(commandId), command, extension, args);
        && commandId == x.1 && serial.port.pending == x.0.left
        && serial.port.written == old(serial.port.written) + x.0.sent
        && Matches(o, x.0.outcome)
      ensures o.Returns? && o.result.Ok? ==> fresh(o.result.value)
    {
      hide ParseReply, ReadReplyFrom, Checked, PackageFrom;
      var package := GetPackage(command, extension, args);
      if package.Err? {
        return Returns(Err(package.error));
      }
      var w := serial.Write(package.value);
      if w.Err? {
        return Returns(Err(w.error));
      }
      ghost var start, sent := serial.port.pending, serial.port.written;
      var reply: Reply? := null;
      while true
        invariant commandId == PackageFrom(old(commandId), command, extension, args).1
        invariant var x, y := ReadFinalFrom(start, commandId), ReadFinalFrom(serial.port.pending, commandId);
          y.outcome == x.outcome && y.left == x.left && serial.port.written + y.sent == sent + x.sent
        decreases |serial.port.pending|
      {
        ghost var q, before := serial.port.pending, serial.port.written;
        var r := ReadReply();
        if r.Spins? {
          return Spins;
        }
        if r.result.Err? {
          return Returns(Err(r.result.error));
        }
        reply := r.result.value;
        if !reply.intermediate {
          break;
        }
        ghost var first := ReadReplyFrom(q, commandId);
        assert before + first.sent + ReadFinalFrom(first.left, commandId).sent
            == before + (first.sent + ReadFinalFrom(first.left, commandId).sent);
      }
      var checked := CheckError(reply.Data());
      if checked.Err? {
        return Returns(Err(checked.error));
      }
      return Returns(Ok(reply));
    }
  }
}
