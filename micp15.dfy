/*
 * The Micheletti P15 scale: one reply format carrying weight, price per
 * kilo and total price in fixed columns, read with Python's Decimal.
 */
module MicP15 {
  import opened Common
  import opened Serial
  import opened Decimals
  import opened Scales

  const PackageSize := 22

  /**
   * Package(data): empty data leaves every field None; otherwise the data
   * must start with STX and be 22 characters long (InvalidReply); the weight
   * is data[1:7] in thousandths, the price per kilo data[8:14] and the total
   * data[15:21] in hundredths, and the code stays None. A field that is not
   * a number makes Decimal raise InvalidOperation. The characters at 7, 14
   * and 21, separators and ETX, are not looked at.
   */
  function ParsePackage(data: string): Result<Package>
  {
    if data == [] then Ok(NoReading)
    else if data[0] != Stx || |data| != PackageSize then Err(Raise(InvalidReply))
    else
      var weight := Thousandths(data[1..7]);
      var price := Hundredths(data[8..14]);
      var total := Hundredths(data[15..21]);
      if weight.None? || price.None? || total.None? then Err(Raise(InvalidOperation))
      else Ok(Package(None, price, total, weight))
  }

  /**
   * Only empty data gives the empty package; data that is not an STX frame
   * of 22 characters is an InvalidReply; a frame gives the three amounts,
   * never a code, or raises InvalidOperation.
   */
  lemma PackageOutcomes(data: string)
    ensures ParsePackage(data) == Ok(NoReading) <==> data == []
    ensures ParsePackage(data) == Err(Raise(InvalidReply)) <==> data != [] && (data[0] != Stx || |data| != PackageSize)
    ensures data != [] && data[0] == Stx && |data| == PackageSize ==>
      (ParsePackage(data).Ok? <==>
        ParseDecimal(data[1..7]).Some? && ParseDecimal(data[8..14]).Some? && ParseDecimal(data[15..21]).Some?)
    ensures ParsePackage(data).Err? && data != [] && data[0] == Stx && |data| == PackageSize ==>
      ParsePackage(data) == Err(Raise(InvalidOperation))
    ensures ParsePackage(data).Ok? && data != [] ==>
      var p := ParsePackage(data).value;
      p.code.None? && p.weight.Some? && p.pricePerKg.Some? && p.totalPrice.Some?
  {
  }

  /** The characters between the columns and the last one do not change the reading. */
  lemma SeparatorsIgnored(data: string, a: char, b: char, c: char)
    requires |data| == PackageSize
    ensures ParsePackage(data[..7] + [a] + data[8..14] + [b] + data[15..21] + [c]) == ParsePackage(data)
  {
    var other := data[..7] + [a] + data[8..14] + [b] + data[15..21] + [c];
    assert other[0] == data[0];
    assert other[1..7] == data[1..7] && other[8..14] == data[8..14] && other[15..21] == data[15..21];
  }

  /** A reply for the given amounts: STX, weight, price and total in six zero-padded digits each, gaps between them, ETX. */
  function Frame(weight: nat, price: nat, total: nat, gap: char): string
  {
    [Stx] + ZeroPad(weight, 6) + [gap] + ZeroPad(price, 6) + [gap] + ZeroPad(total, 6) + [Etx]
  }

  /** A reply reads back as the amounts it carries, the weight in kilograms and the prices in units. */
  lemma FrameRoundTrip(weight: nat, price: nat, total: nat, gap: char)
    requires weight < Pow10(6) && price < Pow10(6) && total < Pow10(6)
    ensures ParsePackage(Frame(weight, price, total, gap)) ==
      Ok(Package(None, Some(price as real / 100.0), Some(total as real / 100.0), Some(weight as real / 1000.0)))
  {
    hide ZeroPad, ParseDecimal, ParseInt, Hundredths, Thousandths, AllDigits;
    var w, p, t := ZeroPad(weight, 6), ZeroPad(price, 6), ZeroPad(total, 6);
    ZeroPaddedField(weight, 6);
    ZeroPaddedField(price, 6);
    ZeroPaddedField(total, 6);
    var frame := Frame(weight, price, total, gap);
    assert frame == [Stx] + w + [gap] + p + [gap] + t + [Etx];
    assert frame[1..7] == w && frame[8..14] == p && frame[15..21] == t;
  }

  /** The reply the P15 sends, as recorded next to _get_package: 0.800 kg at 999.99, 799.99 in all. */
  const SamplePacket := "\U{02}  0800  99999  79999\U{03}"

  lemma SamplePacketReading()
    ensures ParsePackage(SamplePacket) == Ok(Package(None, Some(999.99), Some(799.99), Some(0.8)))
  {
    hide ParseDecimal, Hundredths, Thousandths;
    var data := SamplePacket;
    assert data[1..7] == Fill(' ', 2) + "0800";
    assert data[8..14] == Fill(' ', 1) + "99999";
    assert data[15..21] == Fill(' ', 1) + "79999";
    SpacePaddedField(2, "0800");
    SpacePaddedField(1, "99999");
    SpacePaddedField(1, "79999");
    SampleDigits();
  }

  lemma SampleDigits()
    ensures AllDigits("0800") && DigitsValue("0800") == 800
    ensures AllDigits("99999") && DigitsValue("99999") == 99999
    ensures AllDigits("79999") && DigitsValue("79999") == 79999
  {
    assert "0800"[..3] == "080" && "080"[..2] == "08" && "08"[..1] == "0" && "0"[..0] == "";
    assert "99999"[..4] == "9999" && "9999"[..3] == "999" && "999"[..2] == "99" && "99"[..1] == "9" && "9"[..0] == "";
    assert "79999"[..4] == "7999" && "7999"[..3] == "799" && "799"[..2] == "79" && "79"[..1] == "7" && "7"[..0] == "";
  }

  class Scale {
    const serial: SerialBase

    /** CMD_PREFIX is 0x05, there is no suffix, and EOL_DELIMIT is ETX. */
    predicate Configured()
    {
      serial.prefix == "\U{05}" && serial.suffix == "" && serial.eol == Etx
    }

    /** __init__: a serial line with the request prefix 0x05 and replies ending in ETX. */
    constructor(port: Port)
      ensures serial.port == port && Configured()
    {
      serial := new SerialBase(port, "\U{05}", "", Etx);
    }

    /** read_data: send the request, read the reply up to ETX and parse it with the ETX put back. */
    method ReadData() returns (r: Result<Package>)
      requires Configured()
      modifies serial.port
      ensures serial.port.written == old(serial.port.written) + [0x05]
      ensures var reply := ReadLineFrom(old(serial.port.pending), 0, "", Etx);
        serial.port.pending == reply.1 &&
        r == (if reply.0.Err? then Err(reply.0.error) else ParsePackage(reply.0.value + [Etx]))
    {
      assert serial.prefix + "" + serial.suffix == "\U{05}";
      Utils.TextBytes("\U{05}", [0x05]);
      var reply := serial.WriteLine("");
      if reply.Err? {
        return Err(reply.error);
      }
      r := ParsePackage(reply.value + [Etx]);
    }
  }

  /**
   * The sample reply on the wire: readline stops at its ETX and read_data
   * reads 0.800 kg at 999.99, 799.99 in all.
   */
  lemma ReadDataOfSample(rest: seq<Reply>)
    ensures var line := SamplePacket[..PackageSize - 1];
      var reply := ReadLineFrom(Replies(line) + [Byte(Etx as int)] + rest, 0, "", Etx);
      reply == (Ok(line), rest) &&
      ParsePackage(reply.0.value + [Etx]) == Ok(Package(None, Some(999.99), Some(799.99), Some(0.8)))
  {
    hide ParsePackage, ReadLineFrom, Replies, Utils.IsByteString;
    var line := SamplePacket[..PackageSize - 1];
    SampleLine();
    ReadLineOfLine(line, rest, 0, "", Etx);
    assert "" + line == line;
    SamplePacketReading();
  }

  /** The sample reply without its last character: bytes, no ETX among them, and ETX after them. */
  lemma SampleLine()
    ensures var line := SamplePacket[..PackageSize - 1];
      Utils.IsByteString(line) && Etx !in line && line + [Etx] == SamplePacket
  {
  }
}
