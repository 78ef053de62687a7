/*
 * The ABICOMP character set: the single-byte code page of Brazilian fiscal
 * printers, which puts 62 accented Latin letters and signs at 0xA1-0xDF and
 * leaves ASCII as it is. Text is encoded one character at a time (a table
 * byte, otherwise the character's UTF-8 bytes) and decoded one byte at a time
 * (the table character, otherwise the character with the byte's value).
 */
module Abicomp {
  import opened Common

  // ---------------------------------------------------------------------
  // The table

  /** TABLE.get(c): the ABICOMP byte that stands for character c, if any. */
  function Table(c: char): (r: Option<byte>)
    ensures r.Some? ==> 0xA1 <= r.value <= 0xDF && r.value != 0xBF
    ensures r.Some? ==> c as int >= 0xA1
  {
    match c as int
      case 0x00C0 => Some(0xA1)  // À
      case 0x00C1 => Some(0xA2)  // Á
      case 0x00C2 => Some(0xA3)  // Â
      case 0x00C3 => Some(0xA4)  // Ã
      case 0x00C4 => Some(0xA5)  // Ä
      case 0x00C7 => Some(0xA6)  // Ç
      case 0x00C8 => Some(0xA7)  // È
      case 0x00C9 => Some(0xA8)  // É
      case 0x00CA => Some(0xA9)  // Ê
      case 0x00CB => Some(0xAA)  // Ë
      case 0x00CC => Some(0xAB)  // Ì
      case 0x00CD => Some(0xAC)  // Í
      case 0x00CE => Some(0xAD)  // Î
      case 0x00CF => Some(0xAE)  // Ï
      case 0x00D1 => Some(0xAF)  // Ñ
      case 0x00D2 => Some(0xB0)  // Ò
      case 0x00D3 => Some(0xB1)  // Ó
      case 0x00D4 => Some(0xB2)  // Ô
      case 0x00D5 => Some(0xB3)  // Õ
      case 0x00D6 => Some(0xB4)  // Ö
      case 0x0152 => Some(0xB5)  // Œ
      case 0x00D9 => Some(0xB6)  // Ù
      case 0x00DA => Some(0xB7)  // Ú
      case 0x00DB => Some(0xB8)  // Û
      case 0x00DC => Some(0xB9)  // Ü
      case 0x0178 => Some(0xBA)  // Ÿ
      case 0x02DD => Some(0xBB)  // ˝
      case 0x00A3 => Some(0xBC)  // £
      case 0x02BB => Some(0xBD)  // ʻ
      case 0x00B0 => Some(0xBE)  // °
      case 0x00A1 => Some(0xC0)  // ¡
      case 0x00E0 => Some(0xC1)  // à
      case 0x00E1 => Some(0xC2)  // á
      case 0x00E2 => Some(0xC3)  // â
      case 0x00E3 => Some(0xC4)  // ã
      case 0x00E4 => Some(0xC5)  // ä
      case 0x00E7 => Some(0xC6)  // ç
      case 0x00E8 => Some(0xC7)  // è
      case 0x00E9 => Some(0xC8)  // é
      case 0x00EA => Some(0xC9)  // ê
      case 0x00EB => Some(0xCA)  // ë
      case 0x00EC => Some(0xCB)  // ì
      case 0x00ED => Some(0xCC)  // í
      case 0x00EE => Some(0xCD)  // î
      case 0x00EF => Some(0xCE)  // ï
      case 0x00F1 => Some(0xCF)  // ñ
      case 0x00F2 => Some(0xD0)  // ò
      case 0x00F3 => Some(0xD1)  // ó
      case 0x00F4 => Some(0xD2)  // ô
      case 0x00F5 => Some(0xD3)  // õ
      case 0x00F6 => Some(0xD4)  // ö
      case 0x0153 => Some(0xD5)  // œ
      case 0x00F9 => Some(0xD6)  // ù
      case 0x00FA => Some(0xD7)  // ú
      case 0x00FB => Some(0xD8)  // û
      case 0x00FC => Some(0xD9)  // ü
      case 0x00FF => Some(0xDA)  // ÿ
      case 0x00DF => Some(0xDB)  // ß
      case 0x00AA => Some(0xDC)  // ª
      case 0x00BA => Some(0xDD)  // º
      case 0x00BF => Some(0xDE)  // ¿
      case 0x00B1 => Some(0xDF)  // ±
      case _ => None
  }

  /** RTABLE.get(bytes([b])): the character that ABICOMP byte b stands for, if any. */
  function RTable(b: byte): (r: Option<char>)
    ensures r.Some? <==> 0xA1 <= b <= 0xDF && b != 0xBF
  {
    match b
      case 0xA1 => Some('À')
      case 0xA2 => Some('Á')
      case 0xA3 => Some('Â')
      case 0xA4 => Some('Ã')
      case 0xA5 => Some('Ä')
      case 0xA6 => Some('Ç')
      case 0xA7 => Some('È')
      case 0xA8 => Some('É')
      case 0xA9 => Some('Ê')
      case 0xAA => Some('Ë')
      case 0xAB => Some('Ì')
      case 0xAC => Some('Í')
      case 0xAD => Some('Î')
      case 0xAE => Some('Ï')
      case 0xAF => Some('Ñ')
      case 0xB0 => Some('Ò')
      case 0xB1 => Some('Ó')
      case 0xB2 => Some('Ô')
      case 0xB3 => Some('Õ')
      case 0xB4 => Some('Ö')
      case 0xB5 => Some('Œ')
      case 0xB6 => Some('Ù')
      case 0xB7 => Some('Ú')
      case 0xB8 => Some('Û')
      case 0xB9 => Some('Ü')
      case 0xBA => Some('Ÿ')
      case 0xBB => Some('˝')
      case 0xBC => Some('£')
      case 0xBD => Some('ʻ')
      case 0xBE => Some('°')
      case 0xC0 => Some('¡')
      case 0xC1 => Some('à')
      case 0xC2 => Some('á')
      case 0xC3 => Some('â')
      case 0xC4 => Some('ã')
      case 0xC5 => Some('ä')
      case 0xC6 => Some('ç')
      case 0xC7 => Some('è')
      case 0xC8 => Some('é')
      case 0xC9 => Some('ê')
      case 0xCA => Some('ë')
      case 0xCB => Some('ì')
      case 0xCC => Some('í')
      case 0xCD => Some('î')
      case 0xCE => Some('ï')
      case 0xCF => Some('ñ')
      case 0xD0 => Some('ò')
      case 0xD1 => Some('ó')
      case 0xD2 => Some('ô')
      case 0xD3 => Some('õ')
      case 0xD4 => Some('ö')
      case 0xD5 => Some('œ')
      case 0xD6 => Some('ù')
      case 0xD7 => Some('ú')
      case 0xD8 => Some('û')
      case 0xD9 => Some('ü')
      case 0xDA => Some('ÿ')
      case 0xDB => Some('ß')
      case 0xDC => Some('ª')
      case 0xDD => Some('º')
      case 0xDE => Some('¿')
      case 0xDF => Some('±')
      case _ => None
  }

  /** Every table character comes back from RTABLE. */
  lemma TableThenRTable(c: char)
    ensures Table(c).Some? ==> RTable(Table(c).value) == Some(c)
  { }

  lemma RTableThenTableInRange(b: byte, lo: byte)
    requires lo in {0xA1, 0xB0, 0xC0, 0xD0}
    requires lo <= b < lo + 0x10 && b != 0xBF
    ensures Table(RTable(b).value) == Some(b)
  { }

  /** Every RTABLE byte comes back from TABLE. */
  lemma RTableThenTable(b: byte)
    ensures RTable(b).Some? ==> Table(RTable(b).value) == Some(b)
  {
    hide Table, RTable;
    if RTable(b).Some? {
      RTableThenTableInRange(b, if b < 0xB0 then 0xA1 else b / 0x10 * 0x10);
    }
  }

  /** RTABLE is exactly the inverse of TABLE. */
  lemma TableInverse(c: char, b: byte)
    ensures Table(c) == Some(b) <==> RTable(b) == Some(c)
  {
    hide Table, RTable;
    TableThenRTable(c);
    RTableThenTable(b);
  }

  /** No two characters share a table byte. */
  lemma TableInjective(c: char, d: char)
    ensures Table(c).Some? && Table(c) == Table(d) ==> c == d
  {
    hide Table, RTable;
    TableThenRTable(c);
    TableThenRTable(d);
  }

  // ---------------------------------------------------------------------
  // str.encode() for one character

  /** The UTF-8 encoding of a character, what str.encode() gives for it. */
  function Utf8(c: char): (r: seq<byte>)
    ensures 1 <= |r| <= 4
    ensures c as int < 0x80 ==> r == [c as int]
    ensures c as int >= 0x80 ==> |r| >= 2 && forall i :: 0 <= i < |r| ==> r[i] >= 0x80
  {
    var n := c as int;
    if n < 0x80 then [n]
    else if n < 0x800 then [0xC0 + n / 0x40, 0x80 + n % 0x40]
    else if n < 0x10000 then [0xE0 + n / 0x1000, 0x80 + (n / 0x40) % 0x40, 0x80 + n % 0x40]
    else [0xF0 + n / 0x40000, 0x80 + (n / 0x1000) % 0x40, 0x80 + (n / 0x40) % 0x40, 0x80 + n % 0x40]
  }

  // ---------------------------------------------------------------------
  // The codec

  /** TABLE.get(c) or c.encode(): the bytes one character encodes to. */
  function EncodeChar(c: char): (r: seq<byte>)
    ensures |r| >= 1
  {
    match Table(c)
    case Some(b) => [b]
    case None => Utf8(c)
  }

  /** RTABLE.get(b) or chr(b): the character one byte decodes to. */
  function DecodeByte(b: byte): (r: char)
    ensures b < 0xA1 ==> r as int == b
  {
    match RTable(b)
    case Some(c) => c
    case None => b as char
  }

  /** encode(input): the list of byte strings, one per character. */
  function Encode(input: string): (r: seq<seq<byte>>)
    ensures |r| == |input|
  {
    seq(|input|, i requires 0 <= i < |input| => EncodeChar(input[i]))
  }

  /** decode(input): the list of characters, one per byte. */
  function Decode(input: seq<byte>): (r: string)
    ensures |r| == |input|
  {
    seq(|input|, i requires 0 <= i < |input| => DecodeByte(input[i]))
  }

  /** b"".join(parts). */
  function Join(parts: seq<seq<byte>>): (r: seq<byte>)
  {
    if |parts| == 0 then [] else parts[0] + Join(parts[1..])
  }

  /** Codec.encode: the encoded bytes and the number of characters consumed. */
  function CodecEncode(input: string): (r: (seq<byte>, nat))
    ensures r.1 == |input|
    ensures |input| == 0 ==> r.0 == []
    ensures |r.0| >= |input|
  {
    if |input| == 0 then ([], 0)
    else
      var output := Encode(input);
      JoinEncodeLength(input);
      (Join(output), |output|)
  }

  /** Codec.decode: the decoded text and the number of bytes consumed. */
  function CodecDecode(input: seq<byte>): (r: (string, nat))
    ensures r.1 == |input| && |r.0| == |input|
    ensures |input| == 0 ==> r.0 == []
  {
    if |input| == 0 then ([], 0)
    else
      var output := Decode(input);
      (output, |output|)
  }

  // ---------------------------------------------------------------------
  // Properties

  /** A character ABICOMP encodes as one byte: a table character or ASCII. */
  predicate SingleByte(c: char) { Table(c).Some? || c as int < 0x80 }

  /** Text the codec can carry: every character is a table character or ASCII. */
  predicate Representable(s: string) { forall i :: 0 <= i < |s| ==> SingleByte(s[i]) }

  lemma EncodeCons(s: string)
    requires |s| > 0
    ensures Encode(s) == [EncodeChar(s[0])] + Encode(s[1..])
  { }

  lemma {:induction false} JoinEncodeLength(s: string)
    ensures |Join(Encode(s))| >= |s|
    ensures |Join(Encode(s))| == |s| <==> Representable(s)
    decreases |s|
  {
    hide Table, RTable, Utf8, DecodeByte;
    if |s| > 0 {
      EncodeCons(s);
      JoinEncodeLength(s[1..]);
      assert Representable(s) <==> SingleByte(s[0]) && Representable(s[1..]) by {
        if SingleByte(s[0]) && Representable(s[1..]) {
          forall i | 0 <= i < |s| ensures SingleByte(s[i]) {
            if i > 0 { assert s[i] == s[1..][i - 1]; }
          }
        }
      }
    }
  }

  lemma DecodeAppend(a: seq<byte>, b: seq<byte>)
    ensures Decode(a + b) == Decode(a) + Decode(b)
  { }

  /** A single-byte character decodes back to itself. */
  lemma DecodeEncodeChar(c: char)
    requires SingleByte(c)
    ensures Decode(EncodeChar(c)) == [c]
  {
    TableThenRTable(c);
  }

  /**
   * decode(encode(s)) == s exactly for text made of table characters and
   * ASCII; any other character comes back as two or more characters.
   */
  lemma {:induction false} RoundTrip(s: string)
    ensures Decode(Join(Encode(s))) == s <==> Representable(s)
    decreases |s|
  {
    hide Table, RTable, Utf8, EncodeChar, DecodeByte;
    JoinEncodeLength(s);
    if |s| > 0 && Representable(s) {
      EncodeCons(s);
      DecodeAppend(EncodeChar(s[0]), Join(Encode(s[1..])));
      DecodeEncodeChar(s[0]);
      assert Representable(s[1..]) by {
        forall i | 0 <= i < |s| - 1 ensures SingleByte(s[1..][i]) {
          assert s[1..][i] == s[i + 1];
        }
      }
      RoundTrip(s[1..]);
      assert s == [s[0]] + s[1..];
    }
  }

  /** The same, through the registered codec's encode and decode. */
  lemma CodecRoundTrip(s: string)
    ensures CodecDecode(CodecEncode(s).0).0 == s <==> Representable(s)
  {
    RoundTrip(s);
  }

  /** ASCII text encodes to its own code points. */
  lemma {:induction false} AsciiEncodesToItself(s: string)
    requires forall i :: 0 <= i < |s| ==> s[i] as int < 0x80
    ensures |Join(Encode(s))| == |s|
    ensures forall i :: 0 <= i < |s| ==> Join(Encode(s))[i] == s[i] as int
    decreases |s|
  {
    hide RTable, Utf8, DecodeByte;
    if |s| > 0 {
      EncodeCons(s);
      AsciiEncodesToItself(s[1..]);
      var rest := Join(Encode(s[1..]));
      assert Join(Encode(s)) == [s[0] as int] + rest;
      forall i | 1 <= i < |s| ensures Join(Encode(s))[i] == s[i] as int {
        assert rest[i - 1] == s[1..][i - 1] as int;
      }
    }
  }

  /** Every byte below 0xA1 decodes to the character with its value; the table bytes decode through RTABLE. */
  lemma DecodeBytes(input: seq<byte>)
    ensures forall i :: 0 <= i < |input| && input[i] < 0xA1 ==> Decode(input)[i] as int == input[i]
    ensures forall i :: 0 <= i < |input| && RTable(input[i]).Some? ==>
      Table(Decode(input)[i]) == Some(input[i])
  {
    forall i | 0 <= i < |input| && RTable(input[i]).Some?
      ensures Table(Decode(input)[i]) == Some(input[i])
    {
      RTableThenTable(input[i]);
    }
  }

  // ---------------------------------------------------------------------
  // The module's own self-test

  lemma RepresentableAppend(a: string, b: string)
    ensures Representable(a + b) <==> Representable(a) && Representable(b)
  {
    if Representable(a) && Representable(b) {
      forall i | 0 <= i < |a + b| ensures SingleByte((a + b)[i]) {
        if i >= |a| { assert (a + b)[i] == b[i - |a|]; }
      }
    }
    if Representable(a + b) {
      forall i | 0 <= i < |a| ensures SingleByte(a[i]) {
        assert (a + b)[i] == a[i];
      }
      forall i | 0 <= i < |b| ensures SingleByte(b[i]) {
        assert (a + b)[|a| + i] == b[i];
      }
    }
  }

  /** Every character of s from index k on encodes as one byte; evaluable on literals. */
  predicate SingleByteFrom(s: string, k: nat)
    decreases |s| - k
  {
    k >= |s| || (SingleByte(s[k]) && SingleByteFrom(s, k + 1))
  }

  lemma {:induction false} SingleByteFromMeans(s: string, k: nat)
    requires SingleByteFrom(s, k)
    ensures forall i :: k <= i < |s| ==> SingleByte(s[i])
    decreases |s| - k
  {
    if k < |s| {
      SingleByteFromMeans(s, k + 1);
    }
  }

  lemma AllSingleByte(s: string)
    requires SingleByteFrom(s, 0)
    ensures Representable(s)
  {
    SingleByteFromMeans(s, 0);
  }

  /** TABLE.values() in the table's order: 0xA1-0xBE, then 0xC0-0xDF. */
  function TableByte(i: nat): (b: byte)
    requires i < 62
    ensures 0xA1 <= b <= 0xDF && b != 0xBF
  {
    if i < 30 then 0xA1 + i else 0xC0 + (i - 30)
  }

  /** ''.join(TABLE.keys()): the table characters in the table's order. */
  function Keys(): (r: string)
    ensures |r| == 62
  {
    seq(62, i requires 0 <= i < 62 => RTable(TableByte(i)).value)
  }

  /** test(): the joined table characters survive encode then decode. */
  lemma SelfTestKeys()
    ensures CodecDecode(CodecEncode(Keys()).0).0 == Keys()
  {
    var keys := Keys();
    forall i | 0 <= i < |keys| ensures SingleByte(keys[i]) {
      RTableThenTable(TableByte(i));
    }
    CodecRoundTrip(keys);
  }

  /** test(): the mixed sample 'não dîz' survives encode then decode. */
  lemma SelfTestMixed()
    ensures CodecDecode(CodecEncode("não dîz").0).0 == "não dîz"
  {
    AllSingleByte("não dîz");
    CodecRoundTrip("não dîz");
  }
}
