/*
 * The Sweda SI-300 non-fiscal printer: an ESC/POS printer whose condensed,
 * bold and double-height styles are bits of one text-mode byte, sent whole
 * with ESC '!' every time one of them changes.
 */
module SI300 {
  import opened Common
  import opened Utils
  import opened Serial
  import EscPos

  const FlagCondensed: nat := 0
  const FlagBold: nat := 3
  const FlagDoubleHeight: nat := 4
  const MaxCharacters := 56

  /** 2 ** flag, the bit of a style in the text mode. */
  function Mask(flag: nat): (m: bv8)
    requires flag < 8
    ensures m != 0 && m & (m - 1) == 0
  {
    1 << flag
  }

  predicate HasFlag(mode: bv8, flag: nat)
    requires flag < 8
  {
    mode & Mask(flag) != 0
  }

  /** mode | 2 ** flag */
  function WithFlag(mode: bv8, flag: nat): bv8
    requires flag < 8
  {
    mode | Mask(flag)
  }

  /** mode & ~(2 ** flag) */
  function WithoutFlag(mode: bv8, flag: nat): bv8
    requires flag < 8
  {
    mode & !Mask(flag)
  }

  /** Only the condensed, bold and double-height bits are set. */
  predicate StyleBitsOnly(mode: bv8)
  {
    mode & !(Mask(FlagCondensed) | Mask(FlagBold) | Mask(FlagDoubleHeight)) == 0
  }

  predicate IsStyle(flag: nat)
  {
    flag == FlagCondensed || flag == FlagBold || flag == FlagDoubleHeight
  }

  /** ESC '!' n: select the text mode n. */
  function ModeCommand(mode: bv8): (bytes: seq<byte>)
    ensures |bytes| == 3 && bytes[2] == mode as int
  {
    [0x1B, 0x21, mode as int]
  }

  // ---------------------------------------------------------------------
  // The bit algebra of the text mode

  /** Setting a style turns its bit on and leaves every other bit as it was. */
  lemma WithFlagBits(mode: bv8, flag: nat, other: nat)
    requires flag < 8 && other < 8
    ensures HasFlag(WithFlag(mode, flag), other) <==> other == flag || HasFlag(mode, other)
  {
  }

  /** Unsetting a style turns its bit off and leaves every other bit as it was. */
  lemma WithoutFlagBits(mode: bv8, flag: nat, other: nat)
    requires flag < 8 && other < 8
    ensures HasFlag(WithoutFlag(mode, flag), other) <==> other != flag && HasFlag(mode, other)
  {
  }

  lemma MaskValues()
    ensures Mask(0) == 1 && Mask(1) == 2 && Mask(2) == 4 && Mask(3) == 8
    ensures Mask(4) == 16 && Mask(5) == 32 && Mask(6) == 64 && Mask(7) == 128
  {
  }

  /** Two modes with the same eight bits are the same mode. */
  lemma {:induction false} SameBitsSameMode(a: bv8, b: bv8)
    requires forall k :: 0 <= k < 8 ==> (HasFlag(a, k) <==> HasFlag(b, k))
    ensures a == b
  {
    hide Mask;
    MaskValues();
    assert a & 1 == b & 1 && a & 2 == b & 2 && a & 4 == b & 4 && a & 8 == b & 8 by {
      assert HasFlag(a, 0) == HasFlag(b, 0) && HasFlag(a, 1) == HasFlag(b, 1);
      assert HasFlag(a, 2) == HasFlag(b, 2) && HasFlag(a, 3) == HasFlag(b, 3);
    }
    assert a & 16 == b & 16 && a & 32 == b & 32 && a & 64 == b & 64 && a & 128 == b & 128 by {
      assert HasFlag(a, 4) == HasFlag(b, 4) && HasFlag(a, 5) == HasFlag(b, 5);
      assert HasFlag(a, 6) == HasFlag(b, 6) && HasFlag(a, 7) == HasFlag(b, 7);
    }
  }

  /** set followed by unset gives back the mode a style was clear in. */
  lemma {:induction false} SetThenUnsetRestores(mode: bv8, flag: nat)
    requires flag < 8 && !HasFlag(mode, flag)
    ensures WithoutFlag(WithFlag(mode, flag), flag) == mode
  {
    forall k | 0 <= k < 8
      ensures HasFlag(WithoutFlag(WithFlag(mode, flag), flag), k) <==> HasFlag(mode, k)
    {
      WithoutFlagBits(WithFlag(mode, flag), flag, k);
      WithFlagBits(mode, flag, k);
    }
    SameBitsSameMode(WithoutFlag(WithFlag(mode, flag), flag), mode);
  }

  /** unset followed by set gives back the mode a style was set in. */
  lemma {:induction false} UnsetThenSetRestores(mode: bv8, flag: nat)
    requires flag < 8 && HasFlag(mode, flag)
    ensures WithFlag(WithoutFlag(mode, flag), flag) == mode
  {
    forall k | 0 <= k < 8
      ensures HasFlag(WithFlag(WithoutFlag(mode, flag), flag), k) <==> HasFlag(mode, k)
    {
      WithFlagBits(WithoutFlag(mode, flag), flag, k);
      WithoutFlagBits(mode, flag, k);
    }
    SameBitsSameMode(WithFlag(WithoutFlag(mode, flag), flag), mode);
  }

  /** Setting or unsetting a style twice is setting or unsetting it once. */
  lemma FlagsIdempotent(mode: bv8, flag: nat)
    requires flag < 8
    ensures WithFlag(WithFlag(mode, flag), flag) == WithFlag(mode, flag)
    ensures WithoutFlag(WithoutFlag(mode, flag), flag) == WithoutFlag(mode, flag)
  {
  }

  /** Starting from 0, the six style methods only ever produce modes made of the three style bits. */
  lemma StyleBitsKept(mode: bv8, flag: nat)
    requires StyleBitsOnly(mode) && IsStyle(flag)
    ensures StyleBitsOnly(WithFlag(mode, flag)) && StyleBitsOnly(WithoutFlag(mode, flag))
    ensures WithFlag(mode, flag) as int <= 25
  {
  }

  class Printer {
    const serial: SerialBase
    const escpos: EscPos.Printer
    var textMode: bv8

    /** __init__: the mode starts at 0 and the ESC/POS part has 32 columns and no code page. */
    constructor(serial: SerialBase)
      ensures this.serial == serial && textMode == 0 && StyleBitsOnly(textMode)
      ensures escpos.serial == serial && escpos.columns == 32 && escpos.codepage == None
    {
      this.serial := serial;
      escpos := new EscPos.Printer(serial, 32);
      textMode := 0;
    }

    /** _set_text_mode(mode): keep the mode and send it. */
    method SetTextMode(mode: bv8)
      modifies this, serial.port
      ensures textMode == mode
      ensures serial.port.written == old(serial.port.written) + ModeCommand(mode)
      ensures serial.port.pending == old(serial.port.pending)
    {
      textMode := mode;
      TextBytes(EscPos.Esc + "!" + [mode as int as char], ModeCommand(mode));
      var ok := serial.Write(EscPos.Esc + "!" + [mode as int as char]);
    }

    method SetCondensed()
      modifies this, serial.port
      ensures textMode == WithFlag(old(textMode), FlagCondensed)
      ensures serial.port.written == old(serial.port.written) + ModeCommand(textMode)
      ensures serial.port.pending == old(serial.port.pending)
    {
      SetTextMode(WithFlag(textMode, FlagCondensed));
    }

    method UnsetCondensed()
      modifies this, serial.port
      ensures textMode == WithoutFlag(old(textMode), FlagCondensed)
      ensures serial.port.written == old(serial.port.written) + ModeCommand(textMode)
      ensures serial.port.pending == old(serial.port.pending)
    {
      SetTextMode(WithoutFlag(textMode, FlagCondensed));
    }

    method SetBold()
      modifies this, serial.port
      ensures textMode == WithFlag(old(textMode), FlagBold)
      ensures serial.port.written == old(serial.port.written) + ModeCommand(textMode)
      ensures serial.port.pending == old(serial.port.pending)
    {
      SetTextMode(WithFlag(textMode, FlagBold));
    }

    method UnsetBold()
      modifies this, serial.port
      ensures textMode == WithoutFlag(old(textMode), FlagBold)
      ensures serial.port.written == old(serial.port.written) + ModeCommand(textMode)
      ensures serial.port.pending == old(serial.port.pending)
    {
      SetTextMode(WithoutFlag(textMode, FlagBold));
    }

    method SetDoubleHeight()
      modifies this, serial.port
      ensures textMode == WithFlag(old(textMode), FlagDoubleHeight)
      ensures serial.port.written == old(serial.port.written) + ModeCommand(textMode)
      ensures serial.port.pending == old(serial.port.pending)
    {
      SetTextMode(WithFlag(textMode, FlagDoubleHeight));
    }

    method UnsetDoubleHeight()
      modifies this, serial.port
      ensures textMode == WithoutFlag(old(textMode), FlagDoubleHeight)
      ensures serial.port.written == old(serial.port.written) + ModeCommand(textMode)
      ensures serial.port.pending == old(serial.port.pending)
    {
      SetTextMode(WithoutFlag(textMode, FlagDoubleHeight));
    }

    /**
     * Stands for super().print_matrix(matrix, api, linefeed, multiplier),
     * the print_matrix SI300 inherits from the ESC/POS printer base class,
     * whose source this model does not see. It is given as the write()
     * calls it makes, which run in order until one raises.
     */
    method InheritedPrintMatrix(matrix: seq<Call>) returns (r: Result<Unit>)
      modifies serial.port
      ensures Did(r, old(serial.port.written), serial.port.written, matrix)
      ensures serial.port.pending == old(serial.port.pending)
    {
      var i := 0;
      while i < |matrix|
        invariant 0 <= i <= |matrix|
        invariant Emit(matrix[..i]).0 == Ok(Unit)
        invariant serial.port.written == old(serial.port.written) + Emit(matrix[..i]).1
        invariant serial.port.pending == old(serial.port.pending)
      {
        assert matrix[..i + 1] == matrix[..i] + [matrix[i]];
        EmitAppend(matrix[..i], [matrix[i]]);
        var ok: Result<Unit>;
        match matrix[i] {
          case Raises(e) =>
            EmitRaises(e);
            ok := Err(e);
          case Sends(data) =>
            EmitOne(data);
            ok := serial.Write(data);
        }
        if ok.Err? {
          assert Emit(matrix[..i + 1]) == (ok, Emit(matrix[..i]).1 + []);
          assert matrix == matrix[..i + 1] + matrix[i + 1..];
          EmitAppend(matrix[..i + 1], matrix[i + 1..]);
          return ok;
        }
        i := i + 1;
      }
      assert matrix[..i] == matrix;
      r := Ok(Unit);
    }

    /**
     * print_matrix: condensed is cleared for the matrix and set again
     * afterwards exactly when it was set before, which gives back the
     * mode the printer had. A matrix that raises leaves condensed off.
     */
    method PrintMatrix(matrix: seq<Call>) returns (r: Result<Unit>)
      modifies this, serial.port
      ensures r == Emit(matrix).0
      ensures r.Ok? ==> textMode == old(textMode)
      ensures r.Err? ==> textMode == WithoutFlag(old(textMode), FlagCondensed)
      ensures serial.port.written ==
        old(serial.port.written) + ModeCommand(WithoutFlag(old(textMode), FlagCondensed)) + Emit(matrix).1 +
        (if r.Ok? && HasFlag(old(textMode), FlagCondensed) then ModeCommand(old(textMode)) else [])
      ensures serial.port.pending == old(serial.port.pending)
    {
      var wasCondensed := HasFlag(textMode, FlagCondensed);
      UnsetCondensed();
      r := InheritedPrintMatrix(matrix);
      if r.Ok? && wasCondensed {
        UnsetThenSetRestores(old(textMode), FlagCondensed);
        SetCondensed();
      } else if r.Ok? {
        assert WithoutFlag(old(textMode), FlagCondensed) == old(textMode);
      }
    }
  }
}
