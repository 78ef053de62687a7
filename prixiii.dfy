/*
 * The Toledo Prix III scale: the two reply formats it can send, Prt4 (code,
 * weight, price and total, sent when the operator presses print) and Prt1
 * (the weight alone, sent on request), and the request the driver makes.
 */
module PrixIII {
  import opened Common
  import opened Serial
  import opened Decimals
  import opened Scales

  const Prt4Size := 25
  const Prt1Size := 7

  /**
   * PackagePrt4(data): empty data leaves every field None; otherwise the
   * data must start with STX and be 25 characters long (InvalidReply); the
   * code is int(data[1:7]), the weight data[7:12] in thousandths, the price
   * per kilo data[12:18] and the total data[18:24] in hundredths. A field
   * that does not read as a number raises ValueError. The last character is
   * not looked at.
   */
  function ParsePrt4(data: string): Result<Package>
  {
    if data == [] then Ok(NoReading)
    else if data[0] != Stx || |data| != Prt4Size then Err(Raise(InvalidReply))
    else
      var code := ParseInt(data[1..7]);
      var price := Hundredths(data[12..18]);
      var weight := Thousandths(data[7..12]);
      var total := Hundredths(data[18..24]);
      if code.None? || price.None? || weight.None? || total.None? then Err(Raise(ValueError))
      else Ok(Package(code, price, total, weight))
  }

  /**
   * PackagePrt1(data): empty data leaves every field None; otherwise STX and
   * 7 characters are required, and the weight is data[1:6] in thousandths.
   */
  function ParsePrt1(data: string): Result<Package>
  {
    if data == [] then Ok(NoReading)
    else if data[0] != Stx || |data| != Prt1Size then Err(Raise(InvalidReply))
    else
      match Thousandths(data[1..6])
      case None => Err(Raise(ValueError))
      case Some(weight) => Ok(Package(None, None, None, Some(weight)))
  }

  /**
   * Only empty data gives the empty package; data that is not an STX frame
   * of 25 characters is an InvalidReply; a frame gives all four fields or
   * raises ValueError.
   */
  lemma Prt4Outcomes(data: string)
    ensures ParsePrt4(data) == Ok(NoReading) <==> data == []
    ensures ParsePrt4(data) == Err(Raise(InvalidReply)) <==> data != [] && (data[0] != Stx || |data| != Prt4Size)
    ensures data != [] && data[0] == Stx && |data| == Prt4Size ==>
      (ParsePrt4(data).Ok? <==>
        ParseInt(data[1..7]).Some? && ParseDecimal(data[7..12]).Some? &&
        ParseDecimal(data[12..18]).Some? && ParseDecimal(data[18..24]).Some?)
    ensures ParsePrt4(data).Err? && data != [] && data[0] == Stx && |data| == Prt4Size ==>
      ParsePrt4(data) == Err(Raise(ValueError))
  {
  }

  /** Prt1 in the same way, with the weight as its one field. */
  lemma Prt1Outcomes(data: string)
    ensures ParsePrt1(data) == Ok(NoReading) <==> data == []
    ensures ParsePrt1(data) == Err(Raise(InvalidReply)) <==> data != [] && (data[0] != Stx || |data| != Prt1Size)
    ensures data != [] && data[0] == Stx && |data| == Prt1Size ==>
      (ParsePrt1(data).Ok? <==> ParseDecimal(data[1..6]).Some?)
    ensures ParsePrt1(data).Ok? && data != [] ==>
      ParsePrt1(data).value.code.None? && ParsePrt1(data).value.pricePerKg.None? &&
      ParsePrt1(data).value.totalPrice.None? && ParsePrt1(data).value.weight.Some?
  {
  }

  /** The character after the fields, ETX when the scale sends it, does not change the reading. */
  lemma Prt4IgnoresLast(data: string, c: char)
    requires |data| == Prt4Size
    ensures ParsePrt4(data[..Prt4Size - 1] + [c]) == ParsePrt4(data)
  {
    var other := data[..Prt4Size - 1] + [c];
    assert other[0] == data[0];
    assert other[1..7] == data[1..7] && other[7..12] == data[7..12];
    assert other[12..18] == data[12..18] && other[18..24] == data[18..24];
  }

  /** The Prt4 frame for the given numbers: STX, code (6 digits), weight (5), price (6), total (6), and a last character. */
  function Prt4Frame(code: nat, weight: nat, price: nat, total: nat, last: char): string
  {
    [Stx] + ZeroPad(code, 6) + ZeroPad(weight, 5) + ZeroPad(price, 6) + ZeroPad(total, 6) + [last]
  }

  /** A Prt4 frame reads back as the numbers it carries, weights in kilograms and prices in units. */
  lemma Prt4RoundTrip(code: nat, weight: nat, price: nat, total: nat, last: char)
    requires code < Pow10(6) && weight < Pow10(5) && price < Pow10(6) && total < Pow10(6)
    ensures ParsePrt4(Prt4Frame(code, weight, price, total, last)) ==
      Ok(Package(Some(code), Some(price as real / 100.0), Some(total as real / 100.0), Some(weight as real / 1000.0)))
  {
    hide ZeroPad, ParseInt, ParseDecimal, Hundredths, Thousandths;
    var c, w, p, t := ZeroPad(code, 6), ZeroPad(weight, 5), ZeroPad(price, 6), ZeroPad(total, 6);
    ZeroPaddedField(code, 6);
    ZeroPaddedField(weight, 5);
    ZeroPaddedField(price, 6);
    ZeroPaddedField(total, 6);
    var frame := Prt4Frame(code, weight, price, total, last);
    assert frame == [Stx] + c + w + p + t + [last];
    assert frame[1..7] == c && frame[7..12] == w;
    assert frame[12..18] == p && frame[18..24] == t;
  }

  /** The Prt1 frame for a weight: STX, the weight (5 digits), and a last character. */
  function Prt1Frame(weight: nat, last: char): string
  {
    [Stx] + ZeroPad(weight, 5) + [last]
  }

  lemma Prt1RoundTrip(weight: nat, last: char)
    requires weight < Pow10(5)
    ensures ParsePrt1(Prt1Frame(weight, last)) == Ok(Package(None, None, None, Some(weight as real / 1000.0)))
  {
    hide ZeroPad, ParseDecimal, ParseInt, Thousandths, AllDigits;
    ZeroPaddedField(weight, 5);
    var frame := Prt1Frame(weight, last);
    assert frame[1..6] == ZeroPad(weight, 5);
  }

  /**
   * read_data puts the ETX that readline took off back before parsing, so
   * the data is never empty: a reading is never the empty package, and it
   * is one only when the line was STX and five more characters.
   */
  lemma ReplyIsNeverEmpty(line: string)
    ensures ParsePrt1(line + [Etx]) != Ok(NoReading)
    ensures ParsePrt1(line + [Etx]).Ok? ==> |line| == Prt1Size - 1 && line[0] == Stx
  {
  }

  /**
   * A scale that answers with a Prt1 frame: readline returns it without its
   * ETX, and read_data reads the weight it carries.
   */
  lemma ReadDataOfFrame(weight: nat, rest: seq<Reply>)
    requires weight < Pow10(5)
    ensures var line := [Stx] + ZeroPad(weight, 5);
      var reply := ReadLineFrom(Replies(line) + [Byte(Etx as int)] + rest, 0, "", Etx);
      reply == (Ok(line), rest) &&
      ParsePrt1(reply.0.value + [Etx]) == Ok(Package(None, None, None, Some(weight as real / 1000.0)))
  {
    hide ZeroPad, ParsePrt1, ReadLineFrom, Replies;
    var line := [Stx] + ZeroPad(weight, 5);
    FrameLine(weight);
    ReadLineOfLine(line, rest, 0, "", Etx);
    assert "" + line == line;
    assert line + [Etx] == Prt1Frame(weight, Etx);
    Prt1RoundTrip(weight, Etx);
  }

  /** STX and digits: bytes, and no ETX among them. */
  lemma FrameLine(weight: nat)
    requires weight < Pow10(5)
    ensures Utils.IsByteString([Stx] + ZeroPad(weight, 5)) && Etx !in [Stx] + ZeroPad(weight, 5)
  {
    hide ZeroPad;
    ZeroPaddedField(weight, 5);
    StxDigits(ZeroPad(weight, 5));
  }

  lemma StxDigits(digits: string)
    requires AllDigits(digits)
    ensures Utils.IsByteString([Stx] + digits) && Etx !in [Stx] + digits
  {
    var line := [Stx] + digits;
    assert forall i :: 1 <= i < |line| ==> line[i] == digits[i - 1];
  }

  class Scale {
    const serial: SerialBase

    /** CMD_PREFIX is 0x05, there is no suffix, and EOL_DELIMIT is ETX. */
    predicate Configured()
    {
      serial.prefix == "\U{05}" && serial.suffix == "" && serial.eol == Etx
    }

    /** __init__: a serial line with the request prefix 0x05 and replies ending in ETX. */
    constructor(port: Port)
      ensures serial.port == port && Configured()
    {
      serial := new SerialBase(port, "\U{05}", "", Etx);
    }

    /** read_data: send the request, read the reply up to ETX and parse it, ETX included, as Prt1. */
    method ReadData() returns (r: Result<Package>)
      requires Configured()
      modifies serial.port
      ensures serial.port.written == old(serial.port.written) + [0x05]
      ensures var reply := ReadLineFrom(old(serial.port.pending), 0, "", Etx);
        serial.port.pending == reply.1 &&
        r == (if reply.0.Err? then Err(reply.0.error) else ParsePrt1(reply.0.value + [Etx]))
    {
      assert serial.prefix + "" + serial.suffix == "\U{05}";
      Utils.TextBytes("\U{05}", [0x05]);
      var reply := serial.WriteLine("");
      if reply.Err? {
        return Err(reply.error);
      }
      r := ParsePrt1(reply.value + [Etx]);
    }
  }
}
