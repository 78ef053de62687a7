/*
 * The Elgin I9 non-fiscal printer: fixed ESC/POS commands, barcodes sent in
 * pieces of 22 characters, the ESC/POS QR code sequence, and a drawer
 * status read back as one character.
 */
module I9 {
  import opened Common
  import opened Utils
  import opened Serial
  import EscPos

  const CmdNormalMode := "\U{1B}M\U{00}"
  const CmdCondensedMode := "\U{1B}M\U{01}"
  const CmdCentralize := "\U{1B}a\U{01}"
  const CmdDescentralize := "\U{1B}a\U{00}"
  const CmdSetBold := "\U{1B}E\U{01}"
  const CmdUnsetBold := "\U{1B}E\U{00}"
  const CmdDoubleHeightOn := "\U{1B}G\U{01}"
  const CmdDoubleHeightOff := "\U{1B}G\U{00}"
  const CmdCutPaper := "\U{1D}\U{56}" + [48 as char]
  const CmdOpenDrawer := "\U{1B}p005"
  const CmdDrawerStatus := "\U{1D}r2"
  const MaxCharacters := 57

  /** The barcode is sent code[i:i+22] at a time. */
  const ChunkSize: nat := 22
  /** The length byte of every piece: 22 characters and the two symbology bytes '{' 'A'. */
  const AnnouncedLength := 24

  /** Bar height 80 and width 2. */
  const BarcodeSetup: seq<Call> := [Sends("\U{1D}\U{68}" + [80 as char]), Sends("\U{1D}\U{77}" + [2 as char])]

  /** GS k 'I' 24 '{' 'A' followed by the piece. */
  function ChunkCommand(piece: string): string
  {
    "\U{1D}\U{6B}I" + [AnnouncedLength as char] + "{A" + piece
  }

  /** code[i:i+22], code[i+22:i+44], ... up to the end of the code. */
  function PiecesFrom(code: string, i: nat): seq<string>
    decreases |code| - i
  {
    if i >= |code| then [] else [code[i..EscPos.Min(i + ChunkSize, |code|)]] + PiecesFrom(code, i + ChunkSize)
  }

  function Commands(pieces: seq<string>): (calls: seq<Call>)
    ensures |calls| == |pieces|
    ensures forall k :: 0 <= k < |pieces| ==> calls[k] == Sends(ChunkCommand(pieces[k]))
  {
    seq(|pieces|, k requires 0 <= k < |pieces| => Sends(ChunkCommand(pieces[k])))
  }

  /** The writes of print_barcode from offset i on: the remaining pieces, then a line feed. */
  function BarcodeTail(code: string, i: nat): seq<Call>
  {
    Commands(PiecesFrom(code, i)) + [Sends("\n")]
  }

  /** print_barcode(code): height, width, one command per piece, a line feed. */
  function BarcodeCalls(code: string): seq<Call>
  {
    BarcodeSetup + BarcodeTail(code, 0)
  }

  /**
   * The pieces put back together are the code; every piece has between 1
   * and 22 characters, all but the last exactly 22; there are
   * ceil(len(code) / 22) of them.
   */
  lemma {:induction false} PiecesCover(code: string, i: nat)
    requires i <= |code|
    ensures EscPos.Concat(PiecesFrom(code, i)) == code[i..]
    ensures |PiecesFrom(code, i)| == (|code| - i + ChunkSize - 1) / ChunkSize
    ensures forall k :: 0 <= k < |PiecesFrom(code, i)| ==> 1 <= |PiecesFrom(code, i)[k]| <= ChunkSize
    ensures forall k :: 0 <= k < |PiecesFrom(code, i)| - 1 ==> |PiecesFrom(code, i)[k]| == ChunkSize
    decreases |code| - i
  {
    var pieces := PiecesFrom(code, i);
    if i < |code| {
      var j := EscPos.Min(i + ChunkSize, |code|);
      var rest := PiecesFrom(code, i + ChunkSize);
      assert pieces == [code[i..j]] + rest;
      if i + ChunkSize <= |code| {
        PiecesCover(code, i + ChunkSize);
        assert pieces[1..] == rest;
        assert code[i..] == code[i..j] + code[i + ChunkSize..];
      } else {
        assert rest == [];
        assert pieces[1..] == rest;
      }
    }
  }

  /**
   * Every piece announces 24 bytes, which is the two symbology bytes and the
   * piece only when the piece is 22 characters long: a last piece shorter
   * than that is announced as longer than it is.
   */
  lemma PieceAnnouncement(piece: string)
    ensures |ChunkCommand(piece)| == 6 + |piece|
    ensures ChunkCommand(piece)[3] as int == AnnouncedLength
    ensures ChunkCommand(piece)[3] as int == 2 + |piece| <==> |piece| == ChunkSize
    ensures ChunkCommand(piece)[6..] == piece
  {
  }

  lemma TailStep(code: string, i: nat)
    requires i < |code|
    ensures BarcodeTail(code, i) ==
      [Sends(ChunkCommand(code[i..EscPos.Min(i + ChunkSize, |code|)]))] + BarcodeTail(code, i + ChunkSize)
  {
    var pieces := PiecesFrom(code, i);
    assert pieces == [code[i..EscPos.Min(i + ChunkSize, |code|)]] + PiecesFrom(code, i + ChunkSize);
    assert Commands(pieces) == Commands([pieces[0]]) + Commands(pieces[1..]);
  }

  /** Height and width always go out; the pieces follow. */
  lemma BarcodeStart(code: string)
    ensures Str2Bytes(BarcodeSetup[0].data) == Ok([0x1D, 0x68, 80])
    ensures Str2Bytes(BarcodeSetup[1].data) == Ok([0x1D, 0x77, 2])
    ensures Emit(BarcodeCalls(code)) ==
      (Emit(BarcodeTail(code, 0)).0, [0x1D, 0x68, 80] + [0x1D, 0x77, 2] + Emit(BarcodeTail(code, 0)).1)
  {
    var height, width := BarcodeSetup[0].data, BarcodeSetup[1].data;
    TextBytes(height, [0x1D, 0x68, 80]);
    TextBytes(width, [0x1D, 0x77, 2]);
    assert BarcodeSetup == [Sends(height)] + [Sends(width)];
    EmitOne(height);
    EmitOne(width);
    EmitAppend([Sends(height)], [Sends(width)]);
    EmitAppend(BarcodeSetup, BarcodeTail(code, 0));
  }

  /** One piece: its command goes out, or raises ValueError and ends the barcode. */
  lemma BarcodeStep(code: string, i: nat)
    requires i < |code|
    ensures var command := ChunkCommand(code[i..EscPos.Min(i + ChunkSize, |code|)]);
      Emit(BarcodeTail(code, i)) ==
        if IsByteString(command) then (Emit(BarcodeTail(code, i + ChunkSize)).0,
          Str2Bytes(command).value + Emit(BarcodeTail(code, i + ChunkSize)).1)
        else (Err(Raise(ValueError)), [])
  {
    var command := ChunkCommand(code[i..EscPos.Min(i + ChunkSize, |code|)]);
    TailStep(code, i);
    EmitAppend([Sends(command)], BarcodeTail(code, i + ChunkSize));
    EmitOne(command);
  }

  /** Past the last piece only the line feed is left. */
  lemma BarcodeEnd(code: string, i: nat)
    requires i >= |code|
    ensures Str2Bytes("\n") == Ok([10])
    ensures Emit(BarcodeTail(code, i)) == (Ok(Unit), [10])
  {
    assert PiecesFrom(code, i) == [];
    assert BarcodeTail(code, i) == [Sends("\n")];
    TextBytes("\n", [10]);
    EmitOne("\n");
  }

  /** A status character reads as open when int() of it is 0. */
  function DrawerState(reply: string): Result<bool>
  {
    if reply == [] then Err(Raise(IndexError))
    else match ParseInt([reply[0]])
      case None => Err(Raise(ValueError))
      case Some(n) => Ok(n == 0)
  }

  /** int() of one character: its digit, or nothing. */
  lemma SingleCharInt(c: char)
    ensures ParseInt([c]) == if IsDigit(c) then Some(c as int - '0' as int) else None
  {
    if IsSpace(c) {
      assert LStrip([c]) == LStrip([c][1..]);
    } else {
      assert LStrip([c]) == [c] && RStrip([c]) == [c];
      if c == '-' || c == '+' {
        assert ParseNumeral([c]) == None;
      } else if IsDigit(c) {
        assert DigitsValue([c]) == DigitsValue([]) * 10 + (c as int - '0' as int);
      }
    }
  }

  /**
   * is_drawer_open: no reply at all is an IndexError; the reply's first
   * character is read with int(), so only a digit gives an answer, and the
   * drawer is open exactly when that digit is '0'. A status byte 0x00 is
   * not a digit and raises ValueError.
   */
  lemma DrawerStateMeaning(reply: string)
    ensures reply == [] ==> DrawerState(reply) == Err(Raise(IndexError))
    ensures reply != [] ==> (DrawerState(reply).Ok? <==> IsDigit(reply[0]))
    ensures reply != [] && !IsDigit(reply[0]) ==> DrawerState(reply) == Err(Raise(ValueError))
    ensures reply != [] && IsDigit(reply[0]) ==> DrawerState(reply) == Ok(reply[0] == '0')
  {
    if reply != [] {
      SingleCharInt(reply[0]);
    }
  }

  class Printer {
    const serial: SerialBase

    /** __init__: condensed, left-aligned, bold off, double height off, in that order. */
    constructor(serial: SerialBase)
      modifies serial.port
      ensures this.serial == serial
      ensures serial.port.written == old(serial.port.written) +
        [0x1B, 0x4D, 0x01, 0x1B, 0x61, 0x00, 0x1B, 0x45, 0x00, 0x1B, 0x47, 0x00]
      ensures serial.port.pending == old(serial.port.pending)
    {
      this.serial := serial;
      new;
      SetCondensed();
      Descentralize();
      UnsetBold();
      UnsetDoubleHeight();
    }

    method Centralize()
      modifies serial.port
      ensures serial.port.written == old(serial.port.written) + [0x1B, 0x61, 0x01]
      ensures serial.port.pending == old(serial.port.pending)
    {
      TextBytes(CmdCentralize, [0x1B, 0x61, 0x01]);
      var ok := serial.Write(CmdCentralize);
    }

    method Descentralize()
      modifies serial.port
      ensures serial.port.written == old(serial.port.written) + [0x1B, 0x61, 0x00]
      ensures serial.port.pending == old(serial.port.pending)
    {
      TextBytes(CmdDescentralize, [0x1B, 0x61, 0x00]);
      var ok := serial.Write(CmdDescentralize);
    }

    method SetBold()
      modifies serial.port
      ensures serial.port.written == old(serial.port.written) + [0x1B, 0x45, 0x01]
      ensures serial.port.pending == old(serial.port.pending)
    {
      TextBytes(CmdSetBold, [0x1B, 0x45, 0x01]);
      var ok := serial.Write(CmdSetBold);
    }

    method UnsetBold()
      modifies serial.port
      ensures serial.port.written == old(serial.port.written) + [0x1B, 0x45, 0x00]
      ensures serial.port.pending == old(serial.port.pending)
    {
      TextBytes(CmdUnsetBold, [0x1B, 0x45, 0x00]);
      var ok := serial.Write(CmdUnsetBold);
    }

    method SetCondensed()
      modifies serial.port
      ensures serial.port.written == old(serial.port.written) + [0x1B, 0x4D, 0x01]
      ensures serial.port.pending == old(serial.port.pending)
    {
      TextBytes(CmdCondensedMode, [0x1B, 0x4D, 0x01]);
      var ok := serial.Write(CmdCondensedMode);
    }

    method UnsetCondensed()
      modifies serial.port
      ensures serial.port.written == old(serial.port.written) + [0x1B, 0x4D, 0x00]
      ensures serial.port.pending == old(serial.port.pending)
    {
      TextBytes(CmdNormalMode, [0x1B, 0x4D, 0x00]);
      var ok := serial.Write(CmdNormalMode);
    }

    method SetDoubleHeight()
      modifies serial.port
      ensures serial.port.written == old(serial.port.written) + [0x1B, 0x47, 0x01]
      ensures serial.port.pending == old(serial.port.pending)
    {
      TextBytes(CmdDoubleHeightOn, [0x1B, 0x47, 0x01]);
      var ok := serial.Write(CmdDoubleHeightOn);
    }

    method UnsetDoubleHeight()
      modifies serial.port
      ensures serial.port.written == old(serial.port.written) + [0x1B, 0x47, 0x00]
      ensures serial.port.pending == old(serial.port.pending)
    {
      TextBytes(CmdDoubleHeightOff, [0x1B, 0x47, 0x00]);
      var ok := serial.Write(CmdDoubleHeightOff);
    }

    /** print_line(data): the text and a line feed, in one write. */
    method PrintLine(data: string) returns (r: Result<Unit>)
      modifies serial.port
      ensures Did(r, old(serial.port.written), serial.port.written, [Sends(data + "\n")])
      ensures serial.port.pending == old(serial.port.pending)
    {
      EmitOne(data + "\n");
      r := serial.Write(data + "\n");
    }

    /** print_inline(data): the text as it is. */
    method PrintInline(data: string) returns (r: Result<Unit>)
      modifies serial.port
      ensures Did(r, old(serial.port.written), serial.port.written, [Sends(data)])
      ensures serial.port.pending == old(serial.port.pending)
    {
      EmitOne(data);
      r := serial.Write(data);
    }

    /** print_barcode(code): height and width, then one write per 22-character piece, then a line feed. */
    method PrintBarcode(code: string) returns (r: Result<Unit>)
      modifies serial.port
      ensures Did(r, old(serial.port.written), serial.port.written, BarcodeCalls(code))
      ensures serial.port.pending == old(serial.port.pending)
    {
      hide Emit, BarcodeCalls, BarcodeTail, ChunkCommand, PiecesFrom;
      var height, width := BarcodeSetup[0].data, BarcodeSetup[1].data;
      BarcodeStart(code);
      var ok := serial.Write(height);
      ok := serial.Write(width);
      ghost var done: seq<byte> := [0x1D, 0x68, 80] + [0x1D, 0x77, 2];
      var i: nat := 0;
      while i < |code|
        invariant serial.port.written == old(serial.port.written) + done
        invariant serial.port.pending == old(serial.port.pending)
        invariant Emit(BarcodeCalls(code)) == (Emit(BarcodeTail(code, i)).0, done + Emit(BarcodeTail(code, i)).1)
        decreases |code| - i
      {
        var piece := code[i..EscPos.Min(i + ChunkSize, |code|)];
        BarcodeStep(code, i);
        r := serial.Write(ChunkCommand(piece));
        if r.Err? {
          assert done + [] == done;
          return;
        }
        AppendAssoc(done, Str2Bytes(ChunkCommand(piece)).value, Emit(BarcodeTail(code, i + ChunkSize)).1);
        done := done + Str2Bytes(ChunkCommand(piece)).value;
        i := i + ChunkSize;
      }
      BarcodeEnd(code, i);
      r := serial.Write("\n");
    }

    /** print_qrcode(code): the same four commands as the ESC/POS driver's. */
    method PrintQrcode(code: string) returns (r: Result<Unit>)
      modifies serial.port
      ensures Did(r, old(serial.port.written), serial.port.written, EscPos.QrCalls(code))
      ensures serial.port.pending == old(serial.port.pending)
    {
      hide Emit, IsByteString, Str2Bytes, EscPos.QrStore, EscPos.QrCalls;
      EscPos.QrEmit(code);
      var ok := serial.Write(EscPos.QrSize);
      ok := serial.Write(EscPos.QrLevel);
      r := serial.Write(EscPos.QrStore(code));
      if r.Err? {
        return;
      }
      r := serial.Write(EscPos.QrPrint);
    }

    /** cut_paper: GS V 48. */
    method CutPaper()
      modifies serial.port
      ensures serial.port.written == old(serial.port.written) + [0x1D, 0x56, 48]
      ensures serial.port.pending == old(serial.port.pending)
    {
      TextBytes(CmdCutPaper, [0x1D, 0x56, 48]);
      var ok := serial.Write(CmdCutPaper);
    }

    /** open_drawer: ESC p with pin '0' and pulse times '0' and '5'. */
    method OpenDrawer()
      modifies serial.port
      ensures serial.port.written == old(serial.port.written) + [0x1B, 0x70, 0x30, 0x30, 0x35]
      ensures serial.port.pending == old(serial.port.pending)
    {
      TextBytes(CmdOpenDrawer, [0x1B, 0x70, 0x30, 0x30, 0x35]);
      var ok := serial.Write(CmdOpenDrawer);
    }

    /** is_drawer_open: ask with GS r 2 and read one status character. */
    method IsDrawerOpen() returns (r: Result<bool>)
      modifies serial.port
      ensures serial.port.written == old(serial.port.written) + [0x1D, 0x72, 0x32]
      ensures serial.port.pending == AfterRead(old(serial.port.pending), 1)
      ensures r == DrawerState(Bytes2Str(ReadBytes(old(serial.port.pending), 1)))
    {
      TextBytes(CmdDrawerStatus, [0x1D, 0x72, 0x32]);
      var ok := serial.Write(CmdDrawerStatus);
      var reply := serial.Read(1);
      if reply == [] {
        return Err(Raise(IndexError));
      }
      var n := ParseInt([reply[0]]);
      if n.None? {
        return Err(Raise(ValueError));
      }
      r := Ok(n.value == 0);
    }
  }
}
