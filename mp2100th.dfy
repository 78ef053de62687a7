/*
 * The Bematech MP-2100 TH non-fiscal printer: centring and bold are switched
 * with guarded toggles that remember the printer's state, so asking for the
 * state the printer is already in sends nothing.
 */
module MP2100TH {
  import opened Common
  import opened Utils
  import opened Serial

  const CmdCentralize := "\U{1B}a\U{01}"
  const CmdDescentralize := "\U{1B}a\U{00}"
  const CmdCondensedMode := "\U{1B}SI"
  const CmdSetBold := "\U{1B}E"
  const CmdUnsetBold := "\U{1B}F"

  /** The longest code whose length fits in the one length byte chr(len(code)). */
  const MaxBarcodeLength := 255

  /** Bar height 120, normal width, no human-readable text. */
  const BarcodeSetup: seq<Call> := [
    Sends("\U{1D}\U{68}" + [120 as char]),
    Sends("\U{1D}\U{77}\U{02}"),
    Sends("\U{1D}\U{48}\U{00}")
  ]

  /** print_barcode(code): the three settings, then GS k 'I' with the code's length and the code. */
  function BarcodeCalls(code: string): seq<Call>
  {
    BarcodeSetup +
      [if |code| <= MaxBarcodeLength then Sends("\U{1D}\U{6B}\U{49}" + [|code| as char] + code)
       else Raises(Raise(ValueError))]
  }

  lemma SetupEmit()
    ensures Emit(BarcodeSetup) == (Ok(Unit), [0x1D, 0x68, 120, 0x1D, 0x77, 0x02, 0x1D, 0x48, 0x00])
  {
    var a, b, c := BarcodeSetup[0], BarcodeSetup[1], BarcodeSetup[2];
    assert BarcodeSetup == [a] + ([b] + [c]);
    EmitBytes(a.data, [0x1D, 0x68, 120]);
    EmitBytes(b.data, [0x1D, 0x77, 0x02]);
    EmitBytes(c.data, [0x1D, 0x48, 0x00]);
    EmitAppend([b], [c]);
    EmitAppend([a], [b] + [c]);
    assert [0x1D, 0x68, 120] + ([0x1D, 0x77, 0x02] + [0x1D, 0x48, 0x00]) ==
      [0x1D, 0x68, 120, 0x1D, 0x77, 0x02, 0x1D, 0x48, 0x00];
  }

  /**
   * What print_barcode leaves on the wire: the nine setting bytes, then
   * GS k 'I', a length byte equal to the code's length and the code itself;
   * a code longer than 255 characters, or one with a character that is not
   * a byte, raises ValueError after the settings went out.
   */
  lemma BarcodeBytes(code: string)
    ensures |code| <= MaxBarcodeLength && IsByteString(code) ==>
      Emit(BarcodeCalls(code)) ==
        (Ok(Unit), [0x1D, 0x68, 120, 0x1D, 0x77, 0x02, 0x1D, 0x48, 0x00] + [0x1D, 0x6B, 0x49, |code|] + Str2Bytes(code).value)
    ensures !(|code| <= MaxBarcodeLength && IsByteString(code)) ==>
      Emit(BarcodeCalls(code)) == (Err(Raise(ValueError)), [0x1D, 0x68, 120, 0x1D, 0x77, 0x02, 0x1D, 0x48, 0x00])
  {
    var last := BarcodeCalls(code)[3];
    var setup: seq<byte> := [0x1D, 0x68, 120, 0x1D, 0x77, 0x02, 0x1D, 0x48, 0x00];
    assert BarcodeCalls(code) == BarcodeSetup + [last];
    SetupEmit();
    EmitAppend(BarcodeSetup, [last]);
    assert setup + [] == setup;
    if |code| <= MaxBarcodeLength {
      var head := "\U{1D}\U{6B}\U{49}" + [|code| as char];
      assert last == Sends(head + code);
      TextBytes(head, [0x1D, 0x6B, 0x49, |code|]);
      ByteStringAppend(head, code);
      EmitOne(head + code);
      if IsByteString(code) {
        var tail := Str2Bytes(code).value;
        assert Str2Bytes(head + code).value == [0x1D, 0x6B, 0x49, |code|] + tail;
        AppendAssoc(setup, [0x1D, 0x6B, 0x49, |code|], tail);
      }
    } else {
      EmitRaises(Raise(ValueError));
    }
  }

  lemma SetupTexts()
    ensures Str2Bytes(BarcodeSetup[0].data) == Ok([0x1D, 0x68, 120])
    ensures Str2Bytes(BarcodeSetup[1].data) == Ok([0x1D, 0x77, 0x02])
    ensures Str2Bytes(BarcodeSetup[2].data) == Ok([0x1D, 0x48, 0x00])
  {
    TextBytes(BarcodeSetup[0].data, [0x1D, 0x68, 120]);
    TextBytes(BarcodeSetup[1].data, [0x1D, 0x77, 0x02]);
    TextBytes(BarcodeSetup[2].data, [0x1D, 0x48, 0x00]);
  }

  /** GS k 'I' n code: bytes exactly when the code is, the length byte followed by the code. */
  lemma LastCommand(code: string)
    requires |code| <= MaxBarcodeLength
    ensures var command := "\U{1D}\U{6B}\U{49}" + [|code| as char] + code;
      (IsByteString(command) <==> IsByteString(code)) &&
      (IsByteString(code) ==> Str2Bytes(command).value == [0x1D, 0x6B, 0x49, |code|] + Str2Bytes(code).value)
  {
    var head := "\U{1D}\U{6B}\U{49}" + [|code| as char];
    TextBytes(head, [0x1D, 0x6B, 0x49, |code|]);
    ByteStringAppend(head, code);
    if IsByteString(code) {
      assert Str2Bytes(head + code).value == [0x1D, 0x6B, 0x49, |code|] + Str2Bytes(code).value;
    }
  }

  class Printer {
    const serial: SerialBase
    var isBold: bool
    var isCentralized: bool

    /** __init__: neither bold nor centred, and the printer is put in condensed mode. */
    constructor(serial: SerialBase)
      modifies serial.port
      ensures this.serial == serial && !isBold && !isCentralized
      ensures serial.port.written == old(serial.port.written) + [0x1B, 0x53, 0x49]
      ensures serial.port.pending == old(serial.port.pending)
    {
      this.serial := serial;
      isBold := false;
      isCentralized := false;
      new;
      TextBytes(CmdCondensedMode, [0x1B, 0x53, 0x49]);
      var ok := serial.Write(CmdCondensedMode);
    }

    /** centralize: ESC a 1 goes out only when the printer is not centred yet; afterwards it is. */
    method Centralize()
      modifies this, serial.port
      ensures isCentralized && isBold == old(isBold)
      ensures serial.port.written ==
        old(serial.port.written) + (if old(isCentralized) then [] else [0x1B, 0x61, 0x01])
      ensures serial.port.pending == old(serial.port.pending)
    {
      if isCentralized {
        return;
      }
      TextBytes(CmdCentralize, [0x1B, 0x61, 0x01]);
      var ok := serial.Write(CmdCentralize);
      isCentralized := true;
    }

    /** descentralize: ESC a 0 goes out only when the printer is centred; afterwards it is not. */
    method Descentralize()
      modifies this, serial.port
      ensures !isCentralized && isBold == old(isBold)
      ensures serial.port.written ==
        old(serial.port.written) + (if old(isCentralized) then [0x1B, 0x61, 0x00] else [])
      ensures serial.port.pending == old(serial.port.pending)
    {
      if !isCentralized {
        return;
      }
      TextBytes(CmdDescentralize, [0x1B, 0x61, 0x00]);
      var ok := serial.Write(CmdDescentralize);
      isCentralized := false;
    }

    /** set_bold: ESC E goes out only when the printer is not bold yet; afterwards it is. */
    method SetBold()
      modifies this, serial.port
      ensures isBold && isCentralized == old(isCentralized)
      ensures serial.port.written ==
        old(serial.port.written) + (if old(isBold) then [] else [0x1B, 0x45])
      ensures serial.port.pending == old(serial.port.pending)
    {
      if isBold {
        return;
      }
      TextBytes(CmdSetBold, [0x1B, 0x45]);
      var ok := serial.Write(CmdSetBold);
      isBold := true;
    }

    /** unset_bold: ESC F goes out only when the printer is bold; afterwards it is not. */
    method UnsetBold()
      modifies this, serial.port
      ensures !isBold && isCentralized == old(isCentralized)
      ensures serial.port.written ==
        old(serial.port.written) + (if old(isBold) then [0x1B, 0x46] else [])
      ensures serial.port.pending == old(serial.port.pending)
    {
      if !isBold {
        return;
      }
      TextBytes(CmdUnsetBold, [0x1B, 0x46]);
      var ok := serial.Write(CmdUnsetBold);
      isBold := false;
    }

    /** print_line(data): the text and a line feed, in one write. */
    method PrintLine(data: string) returns (r: Result<Unit>)
      modifies serial.port
      ensures Did(r, old(serial.port.written), serial.port.written, [Sends(data + "\n")])
      ensures serial.port.pending == old(serial.port.pending)
    {
      EmitOne(data + "\n");
      r := serial.Write(data + "\n");
    }

    /** print_inline(data): the text as it is. */
    method PrintInline(data: string) returns (r: Result<Unit>)
      modifies serial.port
      ensures Did(r, old(serial.port.written), serial.port.written, [Sends(data)])
      ensures serial.port.pending == old(serial.port.pending)
    {
      EmitOne(data);
      r := serial.Write(data);
    }

    method PrintBarcode(code: string) returns (r: Result<Unit>)
      modifies serial.port
      ensures Did(r, old(serial.port.written), serial.port.written, BarcodeCalls(code))
      ensures serial.port.pending == old(serial.port.pending)
    {
      hide Emit, BarcodeCalls, Str2Bytes, IsByteString;
      BarcodeBytes(code);
      var a, b, c := BarcodeSetup[0].data, BarcodeSetup[1].data, BarcodeSetup[2].data;
      SetupTexts();
      var ok := serial.Write(a);
      ok := serial.Write(b);
      ok := serial.Write(c);
      ghost var setup: seq<byte> := [0x1D, 0x68, 120, 0x1D, 0x77, 0x02, 0x1D, 0x48, 0x00];
      assert serial.port.written == old(serial.port.written) + setup;
      if |code| > MaxBarcodeLength {
        return Err(Raise(ValueError));
      }
      var head := "\U{1D}\U{6B}\U{49}" + [|code| as char];
      LastCommand(code);
      r := serial.Write(head + code);
      if r.Ok? {
        AppendAssoc(old(serial.port.written), setup, Str2Bytes(head + code).value);
        AppendAssoc(setup, [0x1D, 0x6B, 0x49, |code|], Str2Bytes(code).value);
      }
    }
  }
}
