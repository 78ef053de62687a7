/*
 * The ESC/POS command set shared by the receipt printers (EscPosMixin):
 * code page selection, text, barcodes split to fit a line, QR codes and the
 * paper cut, each written through the driver's write().
 */
module EscPos {
  import opened Common
  import opened Utils
  import opened Serial
  import PrinterBase

  const Esc: string := "\U{1B}"
  const Gs: string := "\U{1D}"

  /** CHARCODES: a name, the codec printed text is encoded with, and the table number ESC t selects. */
  const Charcodes: seq<(string, (string, char))> := [
    ("USA", ("cp437", '\U{00}')),
    ("JIS", ("cp932", '\U{01}')),
    ("MULTILINGUAL", ("cp850", '\U{02}')),
    ("PORTUGUESE", ("cp860", '\U{03}')),
    ("CA_FRENCH", ("cp863", '\U{04}')),
    ("NORDIC", ("cp865", '\U{05}')),
    ("WEST_EUROPE", ("latin_1", '\U{06}')),
    ("GREEK", ("cp737", '\U{07}')),
    ("HEBREW", ("cp862", '\U{08}')),
    ("WPC1252", ("cp1252", '\U{11}')),
    ("CIRILLIC2", ("cp866", '\U{12}')),
    ("LATIN2", ("cp852", '\U{13}')),
    ("EURO", ("cp858", '\U{14}')),
    ("THAI42", ("cp874", '\U{15}')),
    ("THAI11", ("cp874", '\U{16}')),
    ("THAI13", ("cp874", '\U{17}')),
    ("THAI14", ("cp874", '\U{18}')),
    ("THAI16", ("cp874", '\U{19}')),
    ("THAI17", ("cp874", '\U{1A}')),
    ("THAI18", ("cp874", '\U{1B}'))
  ]

  const FontB: string := Esc + "M1"
  const TxtAlignLt: string := Esc + "a\U{00}"
  const TxtAlignCt: string := Esc + "a\U{01}"
  const TxtBoldOff: string := Esc + "E\U{00}"
  const TxtBoldOn: string := Esc + "E\U{01}"
  const BarcodeHeight: string := Gs + "h"
  const BarcodeWidth: string := Gs + "w"
  const BarcodeFontA: string := Gs + "f\U{00}"
  const BarcodeTxtOff: string := Gs + "H\U{00}"
  const BarcodeCode93: string := Gs + "kH"
  const PaperFullCut: string := Gs + "V\U{00}"

  /** Class attributes of EscPosMixin. */
  const CutLineFeeds: nat := 4
  const DefaultFont: string := FontB
  const MaxCharacters := 64
  const MaxBarcodeCharacters := 27

  // ---------------------------------------------------------------------
  // Code pages

  function UpperChar(c: char): char
  {
    if 'a' <= c <= 'z' then (c as int - 32) as char else c
  }

  /** str.upper() on ASCII letters. */
  function Upper(s: string): (r: string)
    ensures |r| == |s| && forall i :: 0 <= i < |s| ==> r[i] == UpperChar(s[i])
  {
    seq(|s|, i requires 0 <= i < |s| => UpperChar(s[i]))
  }

  /** CHARCODES[code.upper()]: the codec and the table number, or None for a KeyError. */
  function CharcodeOf(code: string): Option<(string, char)>
  {
    PrinterBase.Lookup(Charcodes, Upper(code))
  }

  /** Every table number is a control character, so the selection always fits in bytes. */
  lemma SelectionsAreBytes()
    ensures forall i :: 0 <= i < |Charcodes| ==> Charcodes[i].1.1 as int < 0x20
  {
  }

  /** No two names select the same table. */
  lemma SelectionsDistinct()
    ensures forall i, j :: 0 <= i < j < |Charcodes| ==> Charcodes[i].1.1 != Charcodes[j].1.1
  {
  }

  /** The selection a found name sends is one of the table's. */
  lemma CharcodeOfIsRow(code: string)
    requires CharcodeOf(code).Some?
    ensures exists i :: 0 <= i < |Charcodes| && Charcodes[i].0 == Upper(code) && Charcodes[i].1 == CharcodeOf(code).value
    ensures CharcodeOf(code).value.1 as int < 0x20
  {
    SelectionsAreBytes();
  }

  /** ESC t n */
  lemma SelectionBytes(n: char)
    requires n as int < 0x20
    ensures Str2Bytes(Esc + "t" + [n]) == Ok([0x1B, 0x74, n as int])
  {
    TextBytes(Esc + "t" + [n], [0x1B, 0x74, n as int]);
  }

  /** The names are looked up upper-cased, so the case of the name does not matter. */
  lemma CharcodeIgnoresCase(code: string)
    ensures CharcodeOf(code) == CharcodeOf(Upper(code))
  {
    assert Upper(Upper(code)) == Upper(code);
  }

  /** Each name of the table, in any case, selects its own row. */
  lemma CharcodeOfName(i: nat, code: string)
    requires i < |Charcodes| && Upper(code) == Charcodes[i].0
    ensures CharcodeOf(code) == Some(Charcodes[i].1)
  {
    NamesDistinct();
    PrinterBase.GetValueOfItem(PrinterBase.Constants(Charcodes), i, None);
  }

  lemma NamesDistinct()
    ensures PrinterBase.ValidConstants(PrinterBase.Constants(Charcodes))
  {
    NamesDistinctFrom(0, 5);
    NamesDistinctFrom(5, 10);
    NamesDistinctFrom(10, 15);
    NamesDistinctFrom(15, 20);
  }

  lemma NamesDistinctFrom(lo: nat, hi: nat)
    requires lo <= hi <= |Charcodes| && (lo, hi) in {(0, 5), (5, 10), (10, 15), (15, 20)}
    ensures forall i, j :: lo <= i < hi && i < j < |Charcodes| ==> Charcodes[i].0 != Charcodes[j].0
  {
  }

  // ---------------------------------------------------------------------
  // Text

  /** print_inline(text): nothing for an empty text, else the default font and then the text. */
  function InlineCalls(text: string): seq<Call>
  {
    if text == [] then [] else [Sends(DefaultFont), Sends(text)]
  }

  /** A non-empty text of bytes goes out after the font selection ESC M 1, unchanged. */
  lemma InlineBytes(text: string)
    requires text != [] && IsByteString(text)
    ensures Emit(InlineCalls(text)) == (Ok(Unit), [0x1B, 0x4D, 0x31] + Str2Bytes(text).value)
  {
    EmitAppend([Sends(DefaultFont)], [Sends(text)]);
    EmitBytes(DefaultFont, [0x1B, 0x4D, 0x31]);
    EmitOne(text);
    assert [Sends(DefaultFont)] + [Sends(text)] == InlineCalls(text);
  }

  /** Both writes of print_inline: the font selection always goes out, the text when it is bytes. */
  lemma InlineEmit(text: string)
    requires text != []
    ensures IsByteString(DefaultFont)
    ensures Emit(InlineCalls(text)) == if IsByteString(text)
      then (Ok(Unit), Str2Bytes(DefaultFont).value + Str2Bytes(text).value)
      else (Err(Raise(ValueError)), Str2Bytes(DefaultFont).value)
  {
    hide Emit;
    EmitAppend([Sends(DefaultFont)], [Sends(text)]);
    EmitBytes(DefaultFont, [0x1B, 0x4D, 0x31]);
    TextBytes(DefaultFont, [0x1B, 0x4D, 0x31]);
    EmitOne(text);
    assert [Sends(DefaultFont)] + [Sends(text)] == InlineCalls(text);
    assert Str2Bytes(DefaultFont).value + [] == Str2Bytes(DefaultFont).value;
  }

  // ---------------------------------------------------------------------
  // Barcodes

  predicate IsAscii(s: string) { forall i :: 0 <= i < |s| ==> s[i] as int < 128 }

  /** Height 80, width 2, font A and no human readable text. */
  const BarcodeSetup: seq<Call> := [
    Sends(BarcodeHeight + [80 as char]), Sends(BarcodeWidth + [2 as char]),
    Sends(BarcodeFontA), Sends(BarcodeTxtOff)]

  /**
   * The CODE93 command for one piece: its length in one byte, then the
   * piece; code.encode() raises UnicodeError, a ValueError, for a non-ASCII piece.
   */
  function Code93(chunk: string): Call
    requires |chunk| <= MaxBarcodeCharacters
  {
    if IsAscii(chunk) then Sends(BarcodeCode93 + [|chunk| as char] + chunk) else Raises(Raise(ValueError))
  }

  function ChunkCalls(chunk: string): seq<Call>
    requires |chunk| <= MaxBarcodeCharacters
  {
    BarcodeSetup + [Code93(chunk)]
  }

  /**
   * print_barcode(code): nothing for an empty code; a code too long for one
   * line is halved at len // 2, the halves printed with an empty line between.
   */
  function BarcodeCalls(code: string): seq<Call>
    decreases |code|
  {
    if code == [] then []
    else if |code| > MaxBarcodeCharacters then
      var n := |code| / 2;
      BarcodeCalls(code[..n]) + InlineCalls("\n") + BarcodeCalls(code[n..])
    else ChunkCalls(code)
  }

  /** The pieces print_barcode sends as CODE93 commands, in order. */
  function BarcodeChunks(code: string): seq<string>
    decreases |code|
  {
    if code == [] then []
    else if |code| > MaxBarcodeCharacters then
      var n := |code| / 2;
      BarcodeChunks(code[..n]) + BarcodeChunks(code[n..])
    else [code]
  }

  function Concat(chunks: seq<string>): string
  {
    if chunks == [] then [] else chunks[0] + Concat(chunks[1..])
  }

  lemma {:induction false} ConcatAppend(a: seq<string>, b: seq<string>)
    ensures Concat(a + b) == Concat(a) + Concat(b)
  {
    if a == [] {
      assert a + b == b;
    } else {
      assert (a + b)[0] == a[0] && (a + b)[1..] == a[1..] + b;
      ConcatAppend(a[1..], b);
    }
  }

  function Min(a: int, b: int): int { if a < b then a else b }

  /**
   * The pieces put back together give the code, each fits a line (at most
   * 27 characters), and none is shorter than 14 unless the code is.
   */
  lemma {:induction false} BarcodeChunksCover(code: string)
    ensures Concat(BarcodeChunks(code)) == code
    ensures forall i :: 0 <= i < |BarcodeChunks(code)| ==>
      Min(|code|, 14) <= |BarcodeChunks(code)[i]| <= MaxBarcodeCharacters && BarcodeChunks(code)[i] != []
    decreases |code|
  {
    if code == [] {
    } else if |code| > MaxBarcodeCharacters {
      var n := |code| / 2;
      BarcodeChunksCover(code[..n]);
      BarcodeChunksCover(code[n..]);
      ConcatAppend(BarcodeChunks(code[..n]), BarcodeChunks(code[n..]));
      assert code[..n] + code[n..] == code;
    } else {
      assert Concat([code]) == code + Concat([]);
    }
  }

  /** The break print_line('') puts between two pieces. */
  const LineBreak: seq<Call> := [Sends(DefaultFont), Sends("\n")]

  predicate Fit(chunks: seq<string>) { forall i :: 0 <= i < |chunks| ==> |chunks[i]| <= MaxBarcodeCharacters }

  /** Each piece with its own setup and CODE93 command, a line break between two pieces. */
  function SeparatedCalls(chunks: seq<string>): seq<Call>
    requires Fit(chunks)
  {
    if chunks == [] then []
    else if |chunks| == 1 then ChunkCalls(chunks[0])
    else ChunkCalls(chunks[0]) + LineBreak + SeparatedCalls(chunks[1..])
  }

  lemma {:induction false} SeparatedAppend(a: seq<string>, b: seq<string>)
    requires Fit(a) && Fit(b) && a != [] && b != []
    ensures Fit(a + b) && SeparatedCalls(a + b) == SeparatedCalls(a) + LineBreak + SeparatedCalls(b)
  {
    hide ChunkCalls;
    var ab := a + b;
    assert ab[0] == a[0] && ab[1..] == a[1..] + b;
    assert Fit(ab);
    if |a| > 1 {
      SeparatedAppend(a[1..], b);
      var head, x, y := ChunkCalls(a[0]), SeparatedCalls(a[1..]), SeparatedCalls(b);
      assert SeparatedCalls(ab) == head + LineBreak + (x + LineBreak + y);
      assert head + LineBreak + (x + LineBreak + y) == (head + LineBreak + x) + LineBreak + y;
    }
  }

  /**
   * print_barcode sends, for each piece in order, the setup and a CODE93
   * command carrying the piece's exact length, with a line break between
   * consecutive pieces.
   */
  lemma {:induction false} BarcodeCallsArePieces(code: string)
    ensures Fit(BarcodeChunks(code)) && BarcodeCalls(code) == SeparatedCalls(BarcodeChunks(code))
    decreases |code|
  {
    BarcodeChunksCover(code);
    if |code| > MaxBarcodeCharacters {
      var n := |code| / 2;
      BarcodeCallsArePieces(code[..n]);
      BarcodeCallsArePieces(code[n..]);
      BarcodeChunksCover(code[..n]);
      BarcodeChunksCover(code[n..]);
      SeparatedAppend(BarcodeChunks(code[..n]), BarcodeChunks(code[n..]));
    }
  }

  /** A code that fits a line is sent as one CODE93 command with its exact length. */
  lemma ShortBarcode(code: string)
    requires 0 < |code| <= MaxBarcodeCharacters && IsAscii(code)
    ensures BarcodeChunks(code) == [code]
    ensures BarcodeCalls(code)[4] == Sends(BarcodeCode93 + [|code| as char] + code)
  {
  }

  /** print_barcode goes through exactly when the code is ASCII. */
  lemma {:induction false} BarcodeSucceeds(code: string)
    ensures Emit(BarcodeCalls(code)).0.Ok? <==> IsAscii(code)
    decreases |code|
  {
    if code == [] {
    } else if |code| > MaxBarcodeCharacters {
      var n := |code| / 2;
      BarcodeSucceeds(code[..n]);
      BarcodeSucceeds(code[n..]);
      HalvesSucceed(code, n);
      AsciiHalves(code, n);
    } else {
      ChunkSucceeds(code);
    }
  }

  lemma HalvesSucceed(code: string, n: nat)
    requires |code| > MaxBarcodeCharacters && n == |code| / 2
    ensures Emit(BarcodeCalls(code)).0.Ok? <==> Emit(BarcodeCalls(code[..n])).0.Ok? && Emit(BarcodeCalls(code[n..])).0.Ok?
  {
    LongBarcodeEmit(code, n);
  }

  /** The calls of a long code: the first half's, then a line break when it went through, then the second half's. */
  lemma LongBarcodeEmit(code: string, n: nat)
    requires |code| > MaxBarcodeCharacters && n == |code| / 2
    ensures Emit(InlineCalls("\n")).0.Ok?
    ensures var a, b := Emit(BarcodeCalls(code[..n])), Emit(BarcodeCalls(code[n..]));
      Emit(BarcodeCalls(code)) == if a.0.Err? then a else (b.0, a.1 + Emit(InlineCalls("\n")).1 + b.1)
  {
    EmitAppend(BarcodeCalls(code[..n]) + InlineCalls("\n"), BarcodeCalls(code[n..]));
    EmitAppend(BarcodeCalls(code[..n]), InlineCalls("\n"));
    InlineBytes("\n");
  }

  lemma AsciiHalves(code: string, n: nat)
    requires n <= |code|
    ensures IsAscii(code) <==> IsAscii(code[..n]) && IsAscii(code[n..])
  {
    if IsAscii(code[..n]) && IsAscii(code[n..]) {
      forall i | 0 <= i < |code| ensures code[i] as int < 128 {
        if i < n { assert code[i] == code[..n][i]; } else { assert code[i] == code[n..][i - n]; }
      }
    }
  }

  lemma ChunkSucceeds(code: string)
    requires 0 < |code| <= MaxBarcodeCharacters
    ensures Emit(ChunkCalls(code)).0.Ok? <==> IsAscii(code)
  {
    EmitAppend(BarcodeSetup, [Code93(code)]);
    SetupBytes();
    if IsAscii(code) {
      EmitOne(BarcodeCode93 + [|code| as char] + code);
    } else {
      assert [Code93(code)][1..] == [];
    }
  }

  lemma EmptyBarcode()
    ensures Emit(BarcodeCalls([])) == (Ok(Unit), [])
  {
  }

  /** The four setup commands, written one by one, leave the setup's bytes. */
  lemma SetupTexts()
    ensures Str2Bytes(BarcodeHeight + [80 as char]).value + Str2Bytes(BarcodeWidth + [2 as char]).value +
      Str2Bytes(BarcodeFontA).value + Str2Bytes(BarcodeTxtOff).value == Emit(BarcodeSetup).1
  {
    SetupBytes();
    assert Str2Bytes(BarcodeHeight + [80 as char]).value == [0x1D, 0x68, 80];
    assert Str2Bytes(BarcodeWidth + [2 as char]).value == [0x1D, 0x77, 2];
    assert Str2Bytes(BarcodeFontA).value == [0x1D, 0x66, 0];
    assert Str2Bytes(BarcodeTxtOff).value == [0x1D, 0x48, 0];
    assert [0x1D, 0x68, 80] + [0x1D, 0x77, 2] + [0x1D, 0x66, 0] + [0x1D, 0x48, 0] ==
      [0x1D, 0x68, 80, 0x1D, 0x77, 2, 0x1D, 0x66, 0, 0x1D, 0x48, 0];
  }

  /** The same, after whatever the port already holds. */
  lemma SetupWritten(before: seq<byte>)
    ensures IsByteString(BarcodeHeight + [80 as char]) && IsByteString(BarcodeWidth + [2 as char]) &&
      IsByteString(BarcodeFontA) && IsByteString(BarcodeTxtOff)
    ensures before + Str2Bytes(BarcodeHeight + [80 as char]).value + Str2Bytes(BarcodeWidth + [2 as char]).value +
      Str2Bytes(BarcodeFontA).value + Str2Bytes(BarcodeTxtOff).value == before + Emit(BarcodeSetup).1
  {
    var a, b, c, d := Str2Bytes(BarcodeHeight + [80 as char]).value, Str2Bytes(BarcodeWidth + [2 as char]).value,
      Str2Bytes(BarcodeFontA).value, Str2Bytes(BarcodeTxtOff).value;
    SetupTexts();
    AppendAssoc(before, a, b);
    AppendAssoc(before, a + b, c);
    AppendAssoc(before, a + b + c, d);
  }

  /**
   * A code that fits a line: the four setup commands, then its CODE93
   * command or, for a non-ASCII code, the ValueError of code.encode().
   */
  lemma ShortBarcodeEmit(code: string)
    requires 0 < |code| <= MaxBarcodeCharacters
    ensures IsAscii(code) ==> IsByteString(BarcodeCode93 + [|code| as char] + code)
    ensures Emit(BarcodeCalls(code)) == if IsAscii(code)
      then (Ok(Unit), Emit(BarcodeSetup).1 + Str2Bytes(BarcodeCode93 + [|code| as char] + code).value)
      else (Err(Raise(ValueError)), Emit(BarcodeSetup).1)
  {
    hide BarcodeCalls, Emit, IsByteString, Str2Bytes, IsAscii;
    ShortCalls(code);
    SetupBytes();
    EmitAppend(BarcodeSetup, [Code93(code)]);
    if IsAscii(code) {
      Code93Bytes(code);
      EmitOne(BarcodeCode93 + [|code| as char] + code);
    } else {
      EmitRaises(Raise(ValueError));
      assert Emit(BarcodeSetup).1 + [] == Emit(BarcodeSetup).1;
    }
  }

  lemma Code93Bytes(code: string)
    requires 0 < |code| <= MaxBarcodeCharacters && IsAscii(code)
    ensures Code93(code) == Sends(BarcodeCode93 + [|code| as char] + code)
    ensures IsByteString(BarcodeCode93 + [|code| as char] + code)
  {
    ByteStringAppend(BarcodeCode93 + [|code| as char], code);
  }

  lemma ShortCalls(code: string)
    requires 0 < |code| <= MaxBarcodeCharacters
    ensures BarcodeCalls(code) == BarcodeSetup + [Code93(code)]
  {
  }

  /** The setup writes GS h 80, GS w 2, GS f 0 and GS H 0. */
  lemma SetupBytes()
    ensures Emit(BarcodeSetup) == (Ok(Unit), [0x1D, 0x68, 80, 0x1D, 0x77, 2, 0x1D, 0x66, 0, 0x1D, 0x48, 0])
  {
    hide Emit, Str2Bytes, IsByteString;
    var a, b, c, d := BarcodeSetup[0], BarcodeSetup[1], BarcodeSetup[2], BarcodeSetup[3];
    assert BarcodeSetup == [a] + ([b] + ([c] + [d]));
    EmitAppend([c], [d]);
    EmitAppend([b], [c] + [d]);
    EmitAppend([a], [b] + ([c] + [d]));
    EmitBytes(a.data, [0x1D, 0x68, 80]);
    EmitBytes(b.data, [0x1D, 0x77, 2]);
    EmitBytes(c.data, [0x1D, 0x66, 0]);
    EmitBytes(d.data, [0x1D, 0x48, 0]);
    assert [0x1D, 0x68, 80] + ([0x1D, 0x77, 2] + ([0x1D, 0x66, 0] + [0x1D, 0x48, 0])) ==
      [0x1D, 0x68, 80, 0x1D, 0x77, 2, 0x1D, 0x66, 0, 0x1D, 0x48, 0];
  }

  // ---------------------------------------------------------------------
  // QR codes

  /** The store command announces 3 + len(code) bytes as pL + 256 * pH. */
  function QrStore(code: string): string
  {
    var n := 3 + |code|;
    Gs + "(k" + [(n % 256) as char, (n / 256 % 256) as char, 49 as char, 80 as char, 48 as char] + code
  }

  /** Module size 4, error correction level L (48), and printing the stored symbol. */
  const QrSize: string := Gs + "(k\U{03}\U{00}" + [49 as char, 67 as char, 4 as char]
  const QrLevel: string := Gs + "(k\U{03}\U{00}" + [49 as char, 69 as char, 48 as char]
  const QrPrint: string := Gs + "(k\U{03}\U{00}" + [49 as char, 81 as char, 48 as char]

  /** print_qrcode: size, level, store the data, print it. */
  function QrCalls(code: string): seq<Call>
  {
    [Sends(QrSize), Sends(QrLevel), Sends(QrStore(code)), Sends(QrPrint)]
  }

  /**
   * The store command is GS ( k pL pH 49 80 48 and the code; pL + 256 * pH
   * is 3 + len(code) modulo 65536, so exactly 3 + len(code) up to 65532 characters.
   */
  lemma QrStoreHeader(code: string)
    ensures var d := QrStore(code);
      |d| == 8 + |code| && d[..3] == Gs + "(k" && d[5..8] == "1P0" && d[8..] == code &&
      d[3] as int + 256 * d[4] as int == (3 + |code|) % 65536 &&
      (|code| <= 65532 ==> d[3] as int + 256 * d[4] as int == 3 + |code|)
  {
    var n := 3 + |code|;
    var d := QrStore(code);
    assert d[3] as int == n % 256 && d[4] as int == n / 256 % 256;
    LowHighBytes(n);
  }

  /** A length split into its low byte and the low byte of the rest is the length modulo 65536. */
  lemma LowHighBytes(n: nat)
    ensures n % 256 + 256 * (n / 256 % 256) == n % 65536
  {
    var lo, q := n % 256, n / 256;
    var hi, top := q % 256, q / 256;
    assert n == 256 * q + lo && 0 <= lo < 256;
    assert q == 256 * top + hi && 0 <= hi < 256;
    assert n == 65536 * top + (256 * hi + lo) && 0 <= 256 * hi + lo < 65536;
  }

  /** The store command can be sent exactly when the code is bytes; the other three always can. */
  lemma QrStoreBytes(code: string)
    ensures IsByteString(QrStore(code)) <==> IsByteString(code)
    ensures IsByteString(QrSize) && IsByteString(QrLevel) && IsByteString(QrPrint)
  {
    var n := 3 + |code|;
    var head := Gs + "(k" + [(n % 256) as char, (n / 256 % 256) as char, 49 as char, 80 as char, 48 as char];
    assert QrStore(code) == head + code;
    ByteStringAppend(head, code);
  }

  /** The four commands in order; a code that is not bytes stops print_qrcode at the store command. */
  lemma QrEmit(code: string)
    ensures IsByteString(QrSize) && IsByteString(QrLevel) && IsByteString(QrPrint)
    ensures IsByteString(QrStore(code)) <==> IsByteString(code)
    ensures Emit(QrCalls(code)) == if IsByteString(code)
      then (Ok(Unit), Str2Bytes(QrSize).value + Str2Bytes(QrLevel).value + Str2Bytes(QrStore(code)).value + Str2Bytes(QrPrint).value)
      else (Err(Raise(ValueError)), Str2Bytes(QrSize).value + Str2Bytes(QrLevel).value)
  {
    hide Emit, IsByteString, Str2Bytes, QrStore;
    QrStoreBytes(code);
    var a, b, c, d := Sends(QrSize), Sends(QrLevel), Sends(QrStore(code)), Sends(QrPrint);
    assert QrCalls(code) == [a] + ([b] + ([c] + [d]));
    EmitAppend([c], [d]);
    EmitAppend([b], [c] + [d]);
    EmitAppend([a], [b] + ([c] + [d]));
    EmitOne(QrSize);
    EmitOne(QrLevel);
    EmitOne(QrStore(code));
    EmitOne(QrPrint);
    var sa, sb := Str2Bytes(QrSize).value, Str2Bytes(QrLevel).value;
    if IsByteString(code) {
      var sc, sd := Str2Bytes(QrStore(code)).value, Str2Bytes(QrPrint).value;
      AppendAssoc(sa, sb, sc + sd);
      AppendAssoc(sa + sb, sc, sd);
    } else {
      assert sb + [] == sb;
    }
  }

  /** The fixed commands: GS ( k 3 0 followed by 49 67 4, 49 69 48 and 49 81 48. */
  lemma QrFixedBytes()
    ensures Str2Bytes(QrSize) == Ok([0x1D, 0x28, 0x6B, 3, 0, 49, 67, 4])
    ensures Str2Bytes(QrLevel) == Ok([0x1D, 0x28, 0x6B, 3, 0, 49, 69, 48])
    ensures Str2Bytes(QrPrint) == Ok([0x1D, 0x28, 0x6B, 3, 0, 49, 81, 48])
  {
    TextBytes(QrSize, [0x1D, 0x28, 0x6B, 3, 0, 49, 67, 4]);
    TextBytes(QrLevel, [0x1D, 0x28, 0x6B, 3, 0, 49, 69, 48]);
    TextBytes(QrPrint, [0x1D, 0x28, 0x6B, 3, 0, 49, 81, 48]);
  }

  // ---------------------------------------------------------------------
  // Paper cut

  /** cut_paper: cut_line_feeds newlines through print_inline, then the full cut. */
  function CutCalls(): seq<Call>
  {
    InlineCalls(Fill('\n', CutLineFeeds)) + [Sends(PaperFullCut)]
  }

  /** Four line feeds in the default font, then GS V 0. */
  lemma CutBytes()
    ensures Emit(CutCalls()) == (Ok(Unit), [0x1B, 0x4D, 0x31, 10, 10, 10, 10, 0x1D, 0x56, 0])
  {
    hide Emit, InlineCalls;
    CutFeedsBytes();
    EmitAppend(InlineCalls(Fill('\n', CutLineFeeds)), [Sends(PaperFullCut)]);
    EmitBytes(PaperFullCut, [0x1D, 0x56, 0]);
    assert [0x1B, 0x4D, 0x31, 10, 10, 10, 10] + [0x1D, 0x56, 0] == [0x1B, 0x4D, 0x31, 10, 10, 10, 10, 0x1D, 0x56, 0];
  }

  /** The line feeds before the cut go out in the default font. */
  lemma CutFeedsBytes()
    ensures Emit(InlineCalls(Fill('\n', CutLineFeeds))) == (Ok(Unit), [0x1B, 0x4D, 0x31, 10, 10, 10, 10])
  {
    var feeds := Fill('\n', CutLineFeeds);
    FourFeeds();
    EmitAppend([Sends(DefaultFont)], [Sends(feeds)]);
    EmitBytes(DefaultFont, [0x1B, 0x4D, 0x31]);
    EmitBytes(feeds, [10, 10, 10, 10]);
    assert [Sends(DefaultFont)] + [Sends(feeds)] == InlineCalls(feeds);
    assert [0x1B, 0x4D, 0x31] + [10, 10, 10, 10] == [0x1B, 0x4D, 0x31, 10, 10, 10, 10];
  }

  lemma FourFeeds()
    ensures Fill('\n', CutLineFeeds) == "\n\n\n\n"
  {
    FillIndex('\n', CutLineFeeds);
  }

  // ---------------------------------------------------------------------
  // The printer

  /** EscPosMixin: the code page in use, and the port every command goes to. */
  class Printer {
    const serial: SerialBase
    const columns: int
    var codepage: Option<string>

    /** __init__ without a charcode: set_charcode(None) keeps no code page and sends nothing. */
    constructor(serial: SerialBase, columns: int)
      ensures this.serial == serial && this.columns == columns && codepage == None
    {
      this.serial := serial;
      this.columns := columns;
      codepage := None;
    }

    /**
     * set_charcode(code): None clears the code page and sends nothing; a
     * name not in CHARCODES (in any case) raises KeyError and changes nothing;
     * any other name takes its codec and sends ESC t with its table number.
     */
    method SetCharcode(code: Option<string>) returns (r: Result<Unit>)
      modifies this, serial.port
      ensures serial.port.pending == old(serial.port.pending)
      ensures code.None? ==> r.Ok? && codepage == None && serial.port.written == old(serial.port.written)
      ensures code.Some? && CharcodeOf(code.value).None? ==>
        r == Err(Raise(KeyError)) && codepage == old(codepage) && serial.port.written == old(serial.port.written)
      ensures code.Some? && CharcodeOf(code.value).Some? ==>
        r.Ok? && codepage == Some(CharcodeOf(code.value).value.0) &&
        serial.port.written == old(serial.port.written) + [0x1B, 0x74, CharcodeOf(code.value).value.1 as int]
    {
      if code.None? {
        codepage := None;
        return Ok(Unit);
      }
      var entry := CharcodeOf(code.value);
      if entry.None? {
        return Err(Raise(KeyError));
      }
      CharcodeOfIsRow(code.value);
      SelectionBytes(entry.value.1);
      codepage := Some(entry.value.0);
      r := serial.Write(Esc + "t" + [entry.value.1]);
    }

    method Centralize()
      modifies serial.port
      ensures serial.port.written == old(serial.port.written) + [0x1B, 0x61, 0x01]
      ensures serial.port.pending == old(serial.port.pending)
    {
      var ok := serial.Write(TxtAlignCt);
    }

    method Descentralize()
      modifies serial.port
      ensures serial.port.written == old(serial.port.written) + [0x1B, 0x61, 0x00]
      ensures serial.port.pending == old(serial.port.pending)
    {
      var ok := serial.Write(TxtAlignLt);
    }

    method SetBold()
      modifies serial.port
      ensures serial.port.written == old(serial.port.written) + [0x1B, 0x45, 0x01]
      ensures serial.port.pending == old(serial.port.pending)
    {
      var ok := serial.Write(TxtBoldOn);
    }

    method UnsetBold()
      modifies serial.port
      ensures serial.port.written == old(serial.port.written) + [0x1B, 0x45, 0x00]
      ensures serial.port.pending == old(serial.port.pending)
    {
      var ok := serial.Write(TxtBoldOff);
    }

    /** print_inline(text): nothing for an empty text, else the default font and the text. */
    method PrintInline(text: string) returns (r: Result<Unit>)
      modifies serial.port
      ensures Did(r, old(serial.port.written), serial.port.written, InlineCalls(text))
      ensures serial.port.pending == old(serial.port.pending)
    {
      if text == [] {
        return Ok(Unit);
      }
      hide Emit, InlineCalls, Str2Bytes, IsByteString;
      InlineEmit(text);
      var ok := serial.Write(DefaultFont);
      r := serial.Write(text);
    }

    /** print_line(text) is print_inline(text + '\n'). */
    method PrintLine(text: string) returns (r: Result<Unit>)
      modifies serial.port
      ensures Did(r, old(serial.port.written), serial.port.written, InlineCalls(text + "\n"))
      ensures serial.port.pending == old(serial.port.pending)
    {
      r := PrintInline(text + "\n");
    }

    /** print_barcode(code), recursing on the halves of a code longer than 27 characters. */
    method PrintBarcode(code: string) returns (r: Result<Unit>)
      modifies serial.port
      ensures Did(r, old(serial.port.written), serial.port.written, BarcodeCalls(code))
      ensures serial.port.pending == old(serial.port.pending)
      decreases |code|
    {
      hide BarcodeCalls, Emit, InlineCalls, ChunkCalls, IsByteString, Str2Bytes, IsAscii;
      if code == [] {
        EmptyBarcode();
        return Ok(Unit);
      }
      if |code| > MaxBarcodeCharacters {
        var n := |code| / 2;
        LongBarcodeEmit(code, n);
        assert "" + "\n" == "\n";
        r := PrintBarcode(code[..n]);
        if r.Err? {
          return;
        }
        r := PrintLine("");
        r := PrintBarcode(code[n..]);
        return;
      }
      ShortBarcodeEmit(code);
      SetupWritten(old(serial.port.written));
      var ok := serial.Write(BarcodeHeight + [80 as char]);
      ok := serial.Write(BarcodeWidth + [2 as char]);
      ok := serial.Write(BarcodeFontA);
      ok := serial.Write(BarcodeTxtOff);
      if !IsAscii(code) {
        return Err(Raise(ValueError));
      }
      ghost var setup := serial.port.written;
      r := serial.Write(BarcodeCode93 + [|code| as char] + code);
      AppendAssoc(old(serial.port.written), Emit(BarcodeSetup).1, Str2Bytes(BarcodeCode93 + [|code| as char] + code).value);
    }

    /** print_qrcode(code): the four QR commands; the store command fails for a code that is not bytes. */
    method PrintQrcode(code: string) returns (r: Result<Unit>)
      modifies serial.port
      ensures Did(r, old(serial.port.written), serial.port.written, QrCalls(code))
      ensures serial.port.pending == old(serial.port.pending)
    {
      hide Emit, IsByteString, Str2Bytes, QrStore, QrCalls;
      QrEmit(code);
      var ok := serial.Write(QrSize);
      ok := serial.Write(QrLevel);
      r := serial.Write(QrStore(code));
      if r.Err? {
        return;
      }
      r := serial.Write(QrPrint);
    }

    /** cut_paper: four line feeds, then the full cut. */
    method CutPaper()
      modifies serial.port
      ensures serial.port.written == old(serial.port.written) + [0x1B, 0x4D, 0x31, 10, 10, 10, 10, 0x1D, 0x56, 0]
      ensures serial.port.pending == old(serial.port.pending)
    {
      hide Emit, InlineCalls, Fill;
      CutFeedsBytes();
      TextBytes(PaperFullCut, [0x1D, 0x56, 0]);
      var r := PrintInline(Fill('\n', CutLineFeeds));
      var ok := serial.Write(PaperFullCut);
      AppendAssoc(old(serial.port.written), [0x1B, 0x4D, 0x31, 10, 10, 10, 10], [0x1D, 0x56, 0]);
      assert [0x1B, 0x4D, 0x31, 10, 10, 10, 10] + [0x1D, 0x56, 0] == [0x1B, 0x4D, 0x31, 10, 10, 10, 10, 0x1D, 0x56, 0];
    }
  }

  /**
   * EscPosMixin.__init__(columns, charcode): a printer with no code page,
   * then set_charcode(charcode), whose KeyError escapes the constructor.
   */
  method NewPrinter(serial: SerialBase, columns: int, charcode: Option<string>) returns (r: Result<Printer>)
    modifies serial.port
    ensures r.Err? <==> charcode.Some? && CharcodeOf(charcode.value).None?
    ensures r.Err? ==> r.error == Raise(KeyError) && serial.port.written == old(serial.port.written)
    ensures r.Ok? ==> fresh(r.value) && r.value.serial == serial && r.value.columns == columns
    ensures r.Ok? && charcode.None? ==> r.value.codepage == None && serial.port.written == old(serial.port.written)
    ensures r.Ok? && charcode.Some? ==>
      r.value.codepage == Some(CharcodeOf(charcode.value).value.0) &&
      serial.port.written == old(serial.port.written) + [0x1B, 0x74, CharcodeOf(charcode.value).value.1 as int]
    ensures serial.port.pending == old(serial.port.pending)
  {
    var p := new Printer(serial, columns);
    var s := p.SetCharcode(charcode);
    if s.Err? {
      return Err(s.error);
    }
    return Ok(p);
  }
}
