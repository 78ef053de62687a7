/*
 * The Daruma FS2100, an FS345 with a memory that it compacts now and then:
 * send_command resends a command the device refuses as busy (error 35 or
 * 99) and then reads the replies the refused attempts left behind, and the
 * extended command set travels in frames that start with FS and end with
 * the XOR of their bytes.
 */
module FS2100 {
  import opened Common
  import opened Utils
  import opened Serial
  import opened PrinterBase
  import Fiscal
  import FS345

  const Fs: byte := 28
  const CmdAddItem: byte := 201
  const CmdCompatibilityMode: byte := 200

  /** send_command tries a command at most this many times. */
  const Attempts := 10

  // ---------------------------------------------------------------------
  // Resending on a busy device

  /** The classes of stoqdrivers.exceptions, all of them DriverError or a subclass of it. */
  predicate IsDriverError(cls: ExcClass)
  {
    cls !in {ValueError, TypeError, KeyError, IndexError, AssertionError, ZeroDivisionError,
             UnboundLocalError, StructError, AttributeError, InvalidOperation}
  }

  /** A DriverError with code 99 or 35: the device is busy compacting its memory and will answer later. */
  predicate Busy(e: Exception)
  {
    IsDriverError(e.cls) && (e.code == Some(99) || e.code == Some(35))
  }

  /** k calls of _read_reply whose replies are dropped; the first that fails raises. */
  function DrainFrom(p: seq<Reply>, k: nat): (r: (Result<Unit>, seq<Reply>))
    ensures |r.1| <= |p|
    decreases k
  {
    if k == 0 then (Ok(Unit), p)
    else
      var x := FS345.ReplyFrom(p, 0, "");
      if x.0.Err? then (Err(x.0.error), x.1) else DrainFrom(x.1, k - 1)
  }

  /**
   * FS345.send_command run on an FS2100: one exchange, then the reply's
   * handling; error 42 sends CMD_GET_X through the FS2100's own
   * send_command (SendFrom) before the frame goes out again.
   */
  function BaseSendFrom(p: seq<Reply>, raw: string): (r: Step<string>)
    ensures |r.left| <= |p|
    decreases |p|, 0, 0
  {
    var x := FS345.ExchangeFrom(p, raw);
    if x.result.Err? then x
    else
      var retval := x.result.value;
      var e := if FS345.IsErrorReply(retval) then FS345.HandleError(retval) else None;
      if e.None? then Step(Ok(Slice(retval, 1, |retval|)), x.left, x.sent)
      else if e.value.code != Some(42) then Step(Err(e.value), x.left, x.sent)
      else
        var g := SendFrom(x.left, [FS345.CmdGetX as char], 0);
        if g.result.Err? then Step(Err(g.result.error), g.left, x.sent + g.sent)
        else
          var y := BaseSendFrom(g.left, raw);
          Step(y.result, y.left, x.sent + g.sent + y.sent)
  }

  /**
   * send_command from attempt t (counted from 0) on: FS345's send_command,
   * again while the device is busy and attempts remain; any other error
   * propagates. After success on attempt t, or once the tenth attempt was
   * busy too (t is then 9), t replies are read and dropped; with no attempt
   * succeeded, `retval` was never bound.
   */
  function SendFrom(p: seq<Reply>, raw: string, t: nat): (r: Step<string>)
    requires t < Attempts
    ensures |r.left| <= |p|
    decreases |p|, 1, Attempts - t
  {
    var s := BaseSendFrom(p, raw);
    if s.result.Err? && !Busy(s.result.error) then s
    else if s.result.Err? && t + 1 < Attempts then
      var n := SendFrom(s.left, raw, t + 1);
      Step(n.result, n.left, s.sent + n.sent)
    else
      var d := DrainFrom(s.left, t);
      var result := if d.0.Err? then Err(d.0.error)
                    else if s.result.Err? then Err(Raise(UnboundLocalError))
                    else s.result;
      Step(result, d.1, s.sent)
  }

  /** Replies that the device sends as lines, each followed by CR. */
  predicate PlainLines(ls: seq<string>)
  {
    forall i :: 0 <= i < |ls| ==> IsByteString(ls[i]) && FS345.Cr !in ls[i]
  }

  function Lines(ls: seq<string>): (p: seq<Reply>)
    requires PlainLines(ls)
  {
    if ls == [] then [] else Replies(ls[0] + [FS345.Cr]) + Lines(ls[1..])
  }

  /** Draining k replies consumes exactly k lines, whatever they say. */
  lemma {:induction false} DrainLines(ls: seq<string>, q: seq<Reply>)
    requires PlainLines(ls)
    ensures DrainFrom(Lines(ls) + q, |ls|) == (Ok(Unit), q)
  {
    if ls != [] {
      var rest := Lines(ls[1..]) + q;
      assert Lines(ls) == Replies(ls[0] + [FS345.Cr]) + Lines(ls[1..]);
      AppendAssoc(Replies(ls[0] + [FS345.Cr]), Lines(ls[1..]), q);
      FS345.ReplyOfLine(ls[0], rest, 0, "");
      assert "" + ls[0] == ls[0];
      assert DrainFrom(Lines(ls) + q, |ls|) == DrainFrom(rest, |ls| - 1);
      DrainLines(ls[1..], q);
    } else {
      assert Lines(ls) + q == q;
    }
  }

  lemma {:induction false} RepeatSeqCons(s: seq<byte>, n: nat)
    requires n > 0
    ensures RepeatSeq(s, n) == s + RepeatSeq(s, n - 1)
  {
    if n > 1 {
      RepeatSeqCons(s, n - 1);
      assert RepeatSeq(s, n) == s + RepeatSeq(s, n - 2) + s;
    }
  }

  /** k copies of the same reply line. */
  lemma LinesCons(line: string, k: nat, q: seq<Reply>)
    requires k > 0 && IsByteString(line) && FS345.Cr !in line
    ensures PlainLines(Fill(line, k)) && PlainLines(Fill(line, k - 1))
    ensures Lines(Fill(line, k)) + q == Replies(line + [FS345.Cr]) + (Lines(Fill(line, k - 1)) + q)
  {
    FillCons(line, k);
    FillIndex(line, k);
    FillIndex(line, k - 1);
    assert Fill(line, k)[1..] == Fill(line, k - 1);
    AppendAssoc(Replies(line + [FS345.Cr]), Lines(Fill(line, k - 1)), q);
  }

  /** A plain reply (not ':E') to FS345's send_command comes back without its first character. */
  lemma BasePlain(raw: string, s: string, q: seq<Reply>)
    requires IsByteString(FS345.Frame(raw)) && IsByteString(s) && FS345.Cr !in s && !FS345.IsErrorReply(s)
    ensures BaseSendFrom(Replies(s + [FS345.Cr]) + q, raw) == Step(Ok(Slice(s, 1, |s|)), q, FS345.FrameBytes(raw))
  {
    FS345.ReplyOfLine(s, q, 0, "");
    assert "" + s == s;
  }

  /** An error reply raises handle_error's exception, unless it is 21 or 42. */
  lemma BaseError(raw: string, code: nat, q: seq<Reply>)
    requires IsByteString(FS345.Frame(raw)) && code != 21 && code != 42
    ensures FS345.ErrorFor(code).Some?
    ensures BaseSendFrom(Replies(FS345.ErrorReply(code) + [FS345.Cr]) + q, raw) ==
      Step(Err(FS345.ErrorFor(code).value), q, FS345.FrameBytes(raw))
  {
    var s := FS345.ErrorReply(code);
    FS345.ReplyOfLine(s, q, 0, "");
    assert "" + s == s;
    FS345.ErrorReplyParsed(code);
  }

  /** Errors 35 and 99 are the busy ones. */
  lemma BusyCodes(code: nat)
    requires code != 21
    ensures FS345.ErrorFor(code).Some?
    ensures Busy(FS345.ErrorFor(code).value) <==> code == 35 || code == 99
  {
  }

  /**
   * Any error but 35, 99 (and 21, 42, which FS345 does not raise) ends
   * send_command at once: one frame is written, one reply read, nothing
   * drained.
   */
  lemma OtherErrorPropagates(raw: string, code: nat, t: nat, q: seq<Reply>)
    requires IsByteString(FS345.Frame(raw)) && t < Attempts
    requires code !in {21, 35, 42, 99}
    ensures SendFrom(Replies(FS345.ErrorReply(code) + [FS345.Cr]) + q, raw, t) ==
      Step(Err(FS345.ErrorFor(code).value), q, FS345.FrameBytes(raw))
  {
    BaseError(raw, code, q);
    BusyCodes(code);
  }

  /** The bytes written so far, grouped as the loops of send_command account for them. */
  lemma Regroup(w: seq<byte>, a: seq<byte>, b: seq<byte>, c: seq<byte>, d: seq<byte>)
    ensures w + a + b + c == w + (a + (b + c))
    ensures a + (b + c + d) == a + b + c + d
  {
  }

  /** FS345's send_command is one exchange followed by the handling of its reply. */
  lemma BaseSendStep(p: seq<Reply>, raw: string)
    ensures
      var x := FS345.ExchangeFrom(p, raw);
      var e := if x.result.Ok? && FS345.IsErrorReply(x.result.value) then FS345.HandleError(x.result.value) else None;
      var g := SendFrom(x.left, [FS345.CmdGetX as char], 0);
      var y := BaseSendFrom(g.left, raw);
      BaseSendFrom(p, raw) ==
        if x.result.Err? then x
        else if e.None? then Step(Ok(Slice(x.result.value, 1, |x.result.value|)), x.left, x.sent)
        else if e.value.code != Some(42) then Step(Err(e.value), x.left, x.sent)
        else if g.result.Err? then Step(Err(g.result.error), g.left, x.sent + g.sent)
        else Step(y.result, y.left, x.sent + g.sent + y.sent)
  {
  }

  /** A busy attempt with attempts left: the next attempt follows. */
  lemma RetryBusy(p: seq<Reply>, raw: string, t: nat, e: Exception, left: seq<Reply>, sent: seq<byte>)
    requires t + 1 < Attempts && Busy(e) && BaseSendFrom(p, raw) == Step(Err(e), left, sent)
    ensures |left| <= |p|
    ensures var n := SendFrom(left, raw, t + 1); SendFrom(p, raw, t) == Step(n.result, n.left, sent + n.sent)
  {
  }

  /** An attempt refused for any reason but a busy device: send_command gives up at once. */
  lemma RetryFails(p: seq<Reply>, raw: string, t: nat, e: Exception, left: seq<Reply>, sent: seq<byte>)
    requires t < Attempts && !Busy(e) && BaseSendFrom(p, raw) == Step(Err(e), left, sent)
    ensures SendFrom(p, raw, t) == Step(Err(e), left, sent)
  {
  }

  /** Draining k replies: none when k is 0, else one reply and k - 1 more unless it fails. */
  lemma DrainStep(p: seq<Reply>, k: nat)
    ensures DrainFrom(p, k) ==
      if k == 0 then (Ok(Unit), p)
      else
        var x := FS345.ReplyFrom(p, 0, "");
        if x.0.Err? then (Err(x.0.error), x.1) else DrainFrom(x.1, k - 1)
  {
  }

  /** The tenth attempt busy too: t replies drained, then `retval` is unbound. */
  lemma RetryExhausted(p: seq<Reply>, raw: string, t: nat, e: Exception, left: seq<Reply>, sent: seq<byte>)
    requires t + 1 == Attempts && Busy(e) && BaseSendFrom(p, raw) == Step(Err(e), left, sent)
    ensures var d := DrainFrom(left, t);
      SendFrom(p, raw, t) == Step(if d.0.Err? then Err(d.0.error) else Err(Raise(UnboundLocalError)), d.1, sent)
  {
  }

  /** An attempt that succeeds: t replies drained, then its value. */
  lemma RetryAnswered(p: seq<Reply>, raw: string, t: nat, v: string, left: seq<Reply>, sent: seq<byte>)
    requires t < Attempts && BaseSendFrom(p, raw) == Step(Ok(v), left, sent)
    ensures var d := DrainFrom(left, t);
      SendFrom(p, raw, t) == Step(if d.0.Err? then Err(d.0.error) else Ok(v), d.1, sent)
  {
  }

  /**
   * Busy on every one of the ten attempts: ten frames go out, nine replies
   * are then read and dropped, and send_command cannot return, since
   * `retval` was never bound. Nothing after the nine replies is read.
   */
  lemma {:induction false} BusyEveryAttempt(raw: string, code: nat, t: nat, drained: seq<string>, q: seq<Reply>)
    requires IsByteString(FS345.Frame(raw)) && (code == 35 || code == 99) && t < Attempts
    requires PlainLines(drained) && |drained| == Attempts - 1
    ensures PlainLines(Fill(FS345.ErrorReply(code), Attempts - t))
    ensures SendFrom(Lines(Fill(FS345.ErrorReply(code), Attempts - t)) + (Lines(drained) + q), raw, t) ==
      Step(Err(Raise(UnboundLocalError)), q, RepeatSeq(FS345.FrameBytes(raw), Attempts - t))
    decreases Attempts - t
  {
    hide SendFrom, BaseSendFrom, DrainFrom, Lines, Fill, PlainLines, Replies, FS345.ErrorReply,
      FS345.FrameBytes, FS345.ErrorFor, FS345.Frame, IsByteString;
    var line := FS345.ErrorReply(code);
    var rest := Lines(drained) + q;
    var frame := FS345.FrameBytes(raw);
    LinesCons(line, Attempts - t, rest);
    var after := Lines(Fill(line, Attempts - t - 1)) + rest;
    var p := Lines(Fill(line, Attempts - t)) + rest;
    BaseError(raw, code, after);
    BusyCodes(code);
    var e := FS345.ErrorFor(code).value;
    RepeatSeqCons(frame, Attempts - t);
    if t + 1 < Attempts {
      RetryBusy(p, raw, t, e, after, frame);
      BusyEveryAttempt(raw, code, t + 1, drained, q);
    } else {
      FillZero(line);
      assert Attempts - t - 1 == 0;
      assert after == rest;
      RetryExhausted(p, raw, t, e, after, frame);
      DrainLines(drained, q);
      assert RepeatSeq(frame, 0) == [];
    }
  }

  lemma FillZero(line: string)
    ensures Fill(line, 0) == [] && PlainLines(Fill(line, 0)) && Lines(Fill(line, 0)) == []
  {
  }

  /**
   * Busy on attempts t0 to t - 1 and answered with a plain reply s on
   * attempt t: the value comes from s, and exactly t further replies are
   * read and dropped before send_command returns.
   */
  lemma {:induction false} AnsweredOnAttempt(raw: string, code: nat, s: string, t0: nat, t: nat,
                                             drained: seq<string>, q: seq<Reply>)
    requires IsByteString(FS345.Frame(raw)) && (code == 35 || code == 99) && t0 <= t < Attempts
    requires IsByteString(s) && FS345.Cr !in s && !FS345.IsErrorReply(s)
    requires PlainLines(drained) && |drained| == t
    ensures PlainLines(Fill(FS345.ErrorReply(code), t - t0))
    ensures SendFrom(Lines(Fill(FS345.ErrorReply(code), t - t0)) + (Replies(s + [FS345.Cr]) + (Lines(drained) + q)), raw, t0) ==
      Step(Ok(Slice(s, 1, |s|)), q, RepeatSeq(FS345.FrameBytes(raw), t - t0 + 1))
    decreases t - t0
  {
    hide SendFrom, BaseSendFrom, DrainFrom, Lines, Fill, PlainLines, Replies, FS345.ErrorReply,
      FS345.FrameBytes, FS345.ErrorFor, FS345.Frame, FS345.IsErrorReply, Slice;
    var line := FS345.ErrorReply(code);
    var frame := FS345.FrameBytes(raw);
    var rest := Replies(s + [FS345.Cr]) + (Lines(drained) + q);
    if t0 == t {
      FillZero(line);
      var p := Lines(Fill(line, t - t0)) + rest;
      assert p == rest;
      BasePlain(raw, s, Lines(drained) + q);
      RetryAnswered(p, raw, t0, Slice(s, 1, |s|), Lines(drained) + q, frame);
      DrainLines(drained, q);
      RepeatSeqCons(frame, 1);
      assert RepeatSeq(frame, 0) == [];
    } else {
      LinesCons(line, t - t0, rest);
      var p := Lines(Fill(line, t - t0)) + rest;
      var after := Lines(Fill(line, t - t0 - 1)) + rest;
      BaseError(raw, code, after);
      BusyCodes(code);
      RetryBusy(p, raw, t0, FS345.ErrorFor(code).value, after, frame);
      AnsweredOnAttempt(raw, code, s, t0 + 1, t, drained, q);
      RepeatSeqCons(frame, t - t0 + 1);
    }
  }

  /**
   * Error 42 in the middle of FS345's send_command goes through the FS2100's
   * send_command: CMD_GET_X is sent and answered, then the frame goes out
   * again and its reply is the value.
   */
  lemma PendingXThenResend(raw: string, x: string, s: string, q: seq<Reply>)
    requires IsByteString(FS345.Frame(raw)) && IsByteString(x) && FS345.Cr !in x && !FS345.IsErrorReply(x)
    requires IsByteString(s) && FS345.Cr !in s && !FS345.IsErrorReply(s)
    ensures var p := Replies(FS345.ErrorReply(42) + [FS345.Cr]) + (Replies(x + [FS345.Cr]) + (Replies(s + [FS345.Cr]) + q));
      BaseSendFrom(p, raw) ==
      Step(Ok(Slice(s, 1, |s|)), q,
           FS345.FrameBytes(raw) + FS345.FrameBytes([FS345.CmdGetX as char]) + FS345.FrameBytes(raw))
  {
    var e := FS345.ErrorReply(42);
    var getX := [FS345.CmdGetX as char];
    assert IsByteString(FS345.Frame(getX));
    var rest := Replies(x + [FS345.Cr]) + (Replies(s + [FS345.Cr]) + q);
    var p := Replies(e + [FS345.Cr]) + rest;
    PendingXExchange(raw, p, rest);
    hide SendFrom, BaseSendFrom, DrainFrom, Replies, FS345.ErrorReply, FS345.FrameBytes, FS345.Frame, IsByteString,
      FS345.IsErrorReply, Slice, FS345.ExchangeFrom, FS345.HandleError;
    BasePlain(getX, x, Replies(s + [FS345.Cr]) + q);
    RetryAnswered(rest, getX, 0, Slice(x, 1, |x|), Replies(s + [FS345.Cr]) + q, FS345.FrameBytes(getX));
    assert DrainFrom(Replies(s + [FS345.Cr]) + q, 0) == (Ok(Unit), Replies(s + [FS345.Cr]) + q);
    BasePlain(raw, s, q);
  }

  /** The ':E42' reply read by the first exchange, and what follows from it. */
  lemma PendingXExchange(raw: string, p: seq<Reply>, rest: seq<Reply>)
    requires IsByteString(FS345.Frame(raw)) && p == Replies(FS345.ErrorReply(42) + [FS345.Cr]) + rest
    ensures var g := SendFrom(rest, [FS345.CmdGetX as char], 0);
      var y := BaseSendFrom(g.left, raw);
      BaseSendFrom(p, raw) ==
        if g.result.Err? then Step(Err(g.result.error), g.left, FS345.FrameBytes(raw) + g.sent)
        else Step(y.result, y.left, FS345.FrameBytes(raw) + g.sent + y.sent)
  {
    var e := FS345.ErrorReply(42);
    FS345.ReplyOfLine(e, rest, 0, "");
    assert "" + e == e;
    FS345.ErrorReplyParsed(42);
  }

  // ---------------------------------------------------------------------
  // Extended commands

  /** ord(c) as a 32-bit word. */
  function Ord(c: char): bv32
  {
    (c as int) as bv32
  }

  /** reduce(operator.xor, [ord(d) for d in data], 0). */
  function Checksum(data: string): bv32
  {
    if data == [] then 0 else Checksum(data[..|data| - 1]) ^ Ord(data[|data| - 1])
  }

  /** Bit k of a word. */
  predicate Bit(x: bv32, k: bv32)
    requires k < 32
  {
    (x >> k) & 1 == 1
  }

  /** How many characters of data have bit k of their code set. */
  function BitCount(data: string, k: bv32): nat
    requires k < 32
  {
    if data == [] then 0 else BitCount(data[..|data| - 1], k) + (if Bit(Ord(data[|data| - 1]), k) then 1 else 0)
  }

  lemma BitOfXor(a: bv32, b: bv32, k: bv32)
    requires k < 32
    ensures Bit(a ^ b, k) == (Bit(a, k) != Bit(b, k))
  {
  }

  lemma ParityAdd(n: nat, b: bool)
    ensures (n + if b then 1 else 0) % 2 == 1 <==> (n % 2 == 1) != b
  {
  }

  lemma ParityEmpty(k: bv32)
    requires k < 32
    ensures !Bit(Checksum([]), k) && BitCount([], k) == 0
  {
  }

  lemma ParityStep(data: string, k: bv32)
    requires data != [] && k < 32
    ensures Bit(Checksum(data), k) == (Bit(Checksum(data[..|data| - 1]), k) != Bit(Ord(data[|data| - 1]), k))
  {
    ChecksumStep(data);
    hide Checksum, Bit;
    var a, b := Checksum(data[..|data| - 1]), Ord(data[|data| - 1]);
    BitOfXor(a, b, k);
    assert Bit(Checksum(data), k) == Bit(a ^ b, k);
  }

  lemma CountStep(data: string, k: bv32)
    requires data != [] && k < 32
    ensures BitCount(data, k) == BitCount(data[..|data| - 1], k) + if Bit(Ord(data[|data| - 1]), k) then 1 else 0
  {
  }

  lemma ChecksumStep(data: string)
    requires data != []
    ensures Checksum(data) == Checksum(data[..|data| - 1]) ^ Ord(data[|data| - 1])
  {
  }

  /** Bit k of the checksum is set exactly when an odd number of characters have bit k set. */
  lemma {:induction false} ChecksumParity(data: string, k: bv32)
    requires k < 32
    ensures Bit(Checksum(data), k) <==> BitCount(data, k) % 2 == 1
  {
    hide Checksum, BitCount, Bit, Ord;
    if data == [] {
      ParityEmpty(k);
    } else {
      var init, last := data[..|data| - 1], data[|data| - 1];
      ParityStep(data, k);
      CountStep(data, k);
      ChecksumParity(init, k);
      ParityAdd(BitCount(init, k), Bit(Ord(last), k));
    }
  }

  /** The checksum of a byte string is itself a byte. */
  lemma {:induction false} ChecksumIsByte(data: string)
    requires IsByteString(data)
    ensures Checksum(data) < 256
  {
    if data != [] {
      var init := data[..|data| - 1];
      ChecksumIsByte(init);
      ByteOrd(data[|data| - 1]);
      XorOfBytes(Checksum(init), Ord(data[|data| - 1]));
    }
  }

  lemma ByteOrd(c: char)
    requires c as int < 256
    ensures Ord(c) < 256
  {
  }

  lemma XorOfBytes(a: bv32, b: bv32)
    requires a < 256 && b < 256
    ensures a ^ b < 256
  {
  }

  /** chr() of a byte-sized word gives back the word under ord(). */
  lemma OrdOfChr(x: bv32)
    requires x < 256
    ensures Ord((x as int) as char) == x
  {
  }

  /** chr(FS) + prefix + chr(command) + extra. */
  function NewData(prefix: string, command: byte, extra: string): string
  {
    [Fs as char] + prefix + ([command as char] + extra)
  }

  /** What send_new_command writes: the data and one byte that is the XOR of all of them. */
  function NewFrame(data: string): (f: string)
    requires IsByteString(data)
    ensures |f| == |data| + 1 && f[..|data|] == data && IsByteString(f)
  {
    ChecksumIsByte(data);
    data + [(Checksum(data) as int) as char]
  }

  /** A frame checks: the XOR of all its bytes, the checksum included, is zero. */
  lemma FrameChecks(data: string)
    requires IsByteString(data)
    ensures Checksum(NewFrame(data)) == 0
  {
    var f := NewFrame(data);
    ChecksumIsByte(data);
    OrdOfChr(Checksum(data));
    assert f[..|f| - 1] == data;
    assert Ord(f[|f| - 1]) == Checksum(data);
  }

  /**
   * _check_response: chars 1-2 of the reply are the FS345-compatible error
   * number; int() refuses anything else, and a non-zero number is raised
   * through handle_error as ':E' and the number, where 21 is only logged.
   */
  function ResponseError(retcode: string): (r: Option<Exception>)
    ensures ParseInt(Slice(retcode, 1, 3)).None? ==> r == Some(Raise(ValueError))
    ensures ParseInt(Slice(retcode, 1, 3)).Some? ==>
      var n := ParseInt(Slice(retcode, 1, 3)).value;
      r == if n == 0 then None else FS345.ErrorFor(n)
    ensures r.None? <==> ParseInt(Slice(retcode, 1, 3)) in {Some(0), Some(21)}
  {
    var compatible := Slice(retcode, 1, 3);
    match ParseInt(compatible)
    case None => Some(Raise(ValueError))
    case Some(n) =>
      HandlePrefixed(compatible);
      if n != 0 then FS345.HandleError(":E" + compatible) else None
  }

  /** handle_error on ':E' and a code parses the code again: the table entry for its value. */
  lemma HandlePrefixed(code: string)
    ensures FS345.HandleError(":E" + code) ==
      if ParseInt(code).None? then Some(Raise(ValueError)) else FS345.ErrorFor(ParseInt(code).value)
  {
    assert Slice(":E" + code, 2, |":E" + code|) == code;
  }

  /** ResponseError spelled out, for callers that keep the parsers hidden. */
  lemma ResponseErrorBody(retcode: string)
    ensures var compatible := Slice(retcode, 1, 3);
      ResponseError(retcode) ==
        if ParseInt(compatible).None? then Some(Raise(ValueError))
        else if ParseInt(compatible).value != 0 then FS345.HandleError(":E" + compatible)
        else None
  {
  }

  /** A reply whose chars 1-2 are a two-digit number: 0 passes, the rest go through FS345's table. */
  lemma CompatibleErrorRead(first: char, code: nat, tail: string)
    requires code < 100
    ensures ResponseError([first] + FormatZeroPadded(code, 2) + tail) == if code == 0 then None else FS345.ErrorFor(code)
  {
    var digits := FormatZeroPadded(code, 2);
    FS345.ZeroPaddedField(code, 2);
    var s := [first] + digits + tail;
    assert Slice(s, 1, 3) == digits;
  }

  /**
   * send_new_command on the replies p: write the data and its checksum
   * (ValueError, with nothing written, when the checksum or any character
   * is not a byte), read a line up to CR, then the one checksum byte after
   * it, which is never verified; unless asked not to, _check_response
   * judges the line. The value drops the line's first character.
   */
  function NewCommandFrom(p: seq<Reply>, prefix: string, command: byte, extra: string, ignoreError: bool): (r: Step<string>)
    ensures |r.left| <= |p|
    ensures !IsByteString(NewData(prefix, command, extra)) <==> r == Step(Err(Raise(ValueError)), p, [])
    ensures IsByteString(NewData(prefix, command, extra)) ==>
      r.sent == Str2Bytes(NewFrame(NewData(prefix, command, extra))).value
  {
    var data := NewData(prefix, command, extra);
    var checksum := Checksum(data);
    if !IsByteString(data) then Step(Err(Raise(ValueError)), p, [])
    else
      var sent := Str2Bytes(NewFrame(data)).value;
      var line := ReadLineFrom(p, 0, "", FS345.Cr);
      if line.0.Err? then Step(Err(line.0.error), line.1, sent)
      else
        var retval := line.0.value;
        var left := AfterRead(line.1, 1);
        var e := if ignoreError then None else ResponseError(retval);
        if e.Some? then Step(Err(e.value), left, sent)
        else Step(Ok(Slice(retval, 1, |retval|)), left, sent)
  }

  /** readline on a line sent without pauses gives the line. */
  lemma {:induction false} LineRead(s: string, q: seq<Reply>, out: string)
    requires IsByteString(s) && FS345.Cr !in s
    ensures ReadLineFrom(Replies(s + [FS345.Cr]) + q, 0, out, FS345.Cr) == (Ok(out + s), q)
    decreases |s|
  {
    var p := Replies(s + [FS345.Cr]) + q;
    if s == [] {
      assert p[0] == Byte(13) && p[1..] == q;
      assert (13 as byte) as char == FS345.Cr;
      assert out + s == out;
    } else {
      assert p[0] == Byte(s[0] as int as byte) && s[0] != FS345.Cr;
      assert p[1..] == Replies(s[1..] + [FS345.Cr]) + q;
      LineRead(s[1..], q, out + [s[0]]);
      assert out + [s[0]] + s[1..] == out + s;
    }
  }

  /**
   * A reply line whose chars 1-2 read 00, followed by any checksum byte c:
   * the value is the line without its first character, and c is consumed
   * without being looked at.
   */
  lemma NewCommandAnswered(prefix: string, command: byte, extra: string, ignoreError: bool,
                           s: string, c: byte, q: seq<Reply>)
    requires IsByteString(NewData(prefix, command, extra))
    requires IsByteString(s) && FS345.Cr !in s && (ignoreError || ParseInt(Slice(s, 1, 3)) == Some(0))
    ensures NewCommandFrom(Replies(s + [FS345.Cr]) + ([Byte(c)] + q), prefix, command, extra, ignoreError) ==
      Step(Ok(Slice(s, 1, |s|)), q, Str2Bytes(NewFrame(NewData(prefix, command, extra))).value)
  {
    LineRead(s, [Byte(c)] + q, "");
    assert "" + s == s;
    assert AfterRead([Byte(c)] + q, 1) == q;
  }

  /** A non-zero compatible error other than 21 raises FS345's exception, the checksum byte read first. */
  lemma NewCommandRefused(prefix: string, command: byte, extra: string, s: string, c: byte, q: seq<Reply>)
    requires IsByteString(NewData(prefix, command, extra))
    requires IsByteString(s) && FS345.Cr !in s
    requires ParseInt(Slice(s, 1, 3)).Some? && ParseInt(Slice(s, 1, 3)).value !in {0, 21}
    ensures FS345.ErrorFor(ParseInt(Slice(s, 1, 3)).value).Some?
    ensures NewCommandFrom(Replies(s + [FS345.Cr]) + ([Byte(c)] + q), prefix, command, extra, false) ==
      Step(Err(FS345.ErrorFor(ParseInt(Slice(s, 1, 3)).value).value), q,
           Str2Bytes(NewFrame(NewData(prefix, command, extra))).value)
  {
    LineRead(s, [Byte(c)] + q, "");
    assert "" + s == s;
    assert AfterRead([Byte(c)] + q, 1) == q;
  }

  // ---------------------------------------------------------------------
  // Coupon items

  /** The unit field: the table's code, or for a custom unit the first two chars of its description, right-aligned in two. */
  function UnitField(consts: Constants<Fiscal.UnitType, string>, unit: Fiscal.UnitType, unitDesc: string): (r: Result<string>)
    ensures unit == Fiscal.CustomUnit ==> r.Ok? && |r.value| == 2
    ensures unit != Fiscal.CustomUnit ==> (r.Ok? <==> unit in GetItems(consts))
  {
    if unit != Fiscal.CustomUnit then GetValue(consts, unit, None)
    else Ok(PadLeft(Slice(unitDesc, 0, 2), 2, ' '))
  }

  /**
   * '%02s%07d%08d%d%04d%07d%02d%14s%3s%s\xff': tax code, quantity in
   * thousandths, price in cents, the adjustment kind, the adjustment times
   * 100, seven zeros of padding, the description size 0, the item code, the
   * unit, the description (at most 233 chars) and 0xFF.
   */
  function ItemPayload(taxcode: string, qty: int, price: int, kind: int, adjustment: int, code: string,
                       unit: string, description: string): string
  {
    PadLeft(taxcode, 2, ' ') + FormatZeroPadded(qty, 7) + FormatZeroPadded(price, 8) + IntToString(kind) +
    FormatZeroPadded(adjustment, 4) + FormatZeroPadded(0, 7) + FormatZeroPadded(0, 2) + PadLeft(code, 14, ' ') +
    PadLeft(unit, 3, ' ') + Slice(description, 0, 233) + "\U{FF}"
  }

  /**
   * coupon_add_item's payload: kind 2 (surcharge in percent) when there is a
   * surcharge, else kind 0 (discount in percent); the adjustment is cut to
   * a whole number before it is scaled by 100.
   */
  function ItemData(item: ItemArgs, unit: string): string
  {
    var surcharged := item.surcharge != 0.0;
    var kind := if surcharged then 2 else 0;
    var whole := Trunc(if surcharged then item.surcharge else item.discount);
    ItemPayload(item.taxcode, Trunc(item.quantity * 1000.0), Trunc(item.price * 100.0), kind, whole * 100,
      item.code, unit, item.description)
  }

  /** int(value[3:6]): the item id in the reply. */
  function ItemId(value: string): (r: Result<int>)
    ensures r.Ok? <==> ParseInt(Slice(value, 3, 6)).Some?
    ensures r.Ok? ==> Some(r.value) == ParseInt(Slice(value, 3, 6))
    ensures r.Err? ==> r.error == Raise(ValueError)
  {
    match ParseInt(Slice(value, 3, 6))
    case None => Err(Raise(ValueError))
    case Some(n) => Ok(n)
  }

  /** coupon_add_item on the replies p: the unit, the extended CMD_ADD_ITEM with prefix 'F', then the id. */
  function AddItemFrom(p: seq<Reply>, consts: Constants<Fiscal.UnitType, string>, item: ItemArgs): (r: Step<int>)
    ensures |r.left| <= |p|
  {
    var unit := UnitField(consts, item.unit, item.unitDesc);
    if unit.Err? then Step(Err(unit.error), p, [])
    else
      var x := NewCommandFrom(p, "F", CmdAddItem, ItemData(item, unit.value), false);
      if x.result.Err? then Step(Err(x.result.error), x.left, x.sent)
      else Step(ItemId(x.result.value), x.left, x.sent)
  }

  /** Where each field of the item payload starts and ends. */
  lemma ItemLayout(t: string, y: string, z: string, f: string, a: string, pad: string, size: string,
                   k: string, u: string, d: string, e: string)
    requires |t| == 2 && |y| == 7 && |z| == 8 && |f| == 1 && |a| == 4 && |pad| == 7 && |size| == 2
    requires |k| == 14 && |u| == 3 && |e| == 1
    ensures var s := t + y + z + f + a + pad + size + k + u + d + e;
      |s| == 48 + |d| + 1 &&
      s[..2] == t && s[2..9] == y && s[9..17] == z && s[17] == f[0] && s[18..22] == a && s[22..29] == pad &&
      s[29..31] == size && s[31..45] == k && s[45..48] == u && s[48..|s| - 1] == d && s[|s| - 1] == e[0]
  {
    var s := t + y + z + f + a + pad + size + k + u + d + e;
    assert s[..2] == t;
    assert s[2..9] == y;
    assert s[9..17] == z;
    assert s[18..22] == a;
    assert s[22..29] == pad;
    assert s[29..31] == size;
    assert s[31..45] == k;
    assert s[45..48] == u;
    assert s[48..|s| - 1] == d;
  }

  /**
   * The device reads the item payload by position: the tax code, the code
   * and the unit are right-aligned in fields of 2, 14 and 3, the kind is
   * one digit, each amount that fits its width reads back as itself, the
   * padding and the description size are zeros, and the description and
   * 0xFF end it.
   */
  lemma ItemPayloadFields(taxcode: string, qty: nat, price: nat, kind: nat, adjustment: nat, code: string,
                          unit: string, description: string)
    requires |taxcode| <= 2 && |code| <= 14 && |unit| <= 3 && kind < 10
    requires qty < Pow10(7) && price < Pow10(8) && adjustment < Pow10(4)
    ensures var s := ItemPayload(taxcode, qty, price, kind, adjustment, code, unit, description);
      |s| == 48 + |Slice(description, 0, 233)| + 1 &&
      s[..2] == PadLeft(taxcode, 2, ' ') && ParseInt(s[2..9]) == Some(qty) && ParseInt(s[9..17]) == Some(price) &&
      s[17] as int == '0' as int + kind && ParseInt(s[18..22]) == Some(adjustment) &&
      s[22..29] == "0000000" && s[29..31] == "00" && s[31..45] == PadLeft(code, 14, ' ') &&
      s[45..48] == PadLeft(unit, 3, ' ') && s[48..|s| - 1] == Slice(description, 0, 233) && s[|s| - 1] == '\U{FF}'
  {
    assert IntToString(kind) == [DigitChar(kind)];
    assert FormatZeroPadded(0, 7) == "0000000" && FormatZeroPadded(0, 2) == "00";
    hide PadLeft, FormatZeroPadded, ParseInt, Slice, IntToString;
    FS345.ZeroPaddedField(qty, 7);
    FS345.ZeroPaddedField(price, 8);
    FS345.ZeroPaddedField(adjustment, 4);
    ItemLayout(PadLeft(taxcode, 2, ' '), FormatZeroPadded(qty, 7), FormatZeroPadded(price, 8), IntToString(kind),
      FormatZeroPadded(adjustment, 4), FormatZeroPadded(0, 7), FormatZeroPadded(0, 2), PadLeft(code, 14, ' '),
      PadLeft(unit, 3, ' '), Slice(description, 0, 233), "\U{FF}");
  }

  /**
   * The kind digit is 2 exactly when there is a surcharge, and the
   * adjustment field holds the surcharge (or else the discount) cut to a
   * whole number and scaled by 100.
   */
  lemma ItemAdjustment(item: ItemArgs, unit: string)
    requires |item.taxcode| <= 2 && |item.code| <= 14 && |unit| <= 3
    requires 0 <= Trunc(item.quantity * 1000.0) < Pow10(7) && 0 <= Trunc(item.price * 100.0) < Pow10(8)
    requires 0 <= Trunc(if item.surcharge != 0.0 then item.surcharge else item.discount) < 100
    ensures var s := ItemData(item, unit);
      |s| >= 49 && (s[17] == '2' <==> item.surcharge != 0.0) && (s[17] == '0' <==> item.surcharge == 0.0) &&
      ParseInt(s[18..22]) == Some(100 * Trunc(if item.surcharge != 0.0 then item.surcharge else item.discount))
  {
    hide *;
    var whole := Trunc(if item.surcharge != 0.0 then item.surcharge else item.discount);
    var kind := if item.surcharge != 0.0 then 2 else 0;
    ItemDataIs(item, unit);
    Pow10Four();
    ItemPayloadFields(item.taxcode, Trunc(item.quantity * 1000.0), Trunc(item.price * 100.0),
      if item.surcharge != 0.0 then 2 else 0, whole * 100, item.code, unit, item.description);
  }

  /** ItemData spelled out, for callers that keep the payload hidden. */
  lemma ItemDataIs(item: ItemArgs, unit: string)
    ensures ItemData(item, unit) ==
      var surcharged := item.surcharge != 0.0;
      ItemPayload(item.taxcode, Trunc(item.quantity * 1000.0), Trunc(item.price * 100.0), if surcharged then 2 else 0,
        Trunc(if surcharged then item.surcharge else item.discount) * 100, item.code, unit, item.description)
  {
    hide ItemPayload, Trunc;
  }

  lemma Pow10Four()
    ensures Pow10(4) == 10000
  {
  }

  /** The id is the three digits after the value's first three characters. */
  lemma ItemIdRead(value: string)
    requires |value| >= 6 && AllDigits(value[3..6])
    ensures ItemId(value) == Ok(DigitsValue(value[3..6]))
  {
    ParseDigits(value[3..6]);
  }

  /** A unit the constants do not know raises before anything is written. */
  lemma UnknownUnitSendsNothing(p: seq<Reply>, consts: Constants<Fiscal.UnitType, string>, item: ItemArgs)
    requires item.unit != Fiscal.CustomUnit && item.unit !in GetItems(consts)
    ensures AddItemFrom(p, consts, item) == Step(Err(Raise(ValueError)), p, [])
  {
  }

  // ---------------------------------------------------------------------
  // The driver

  /** What a valid driver guarantees its methods. */
  lemma ValidParts(d: FS2100)
    requires d.Valid()
    ensures d.base.Valid() && 0 < Attempts
  {
  }

  /** An FS2100 is an FS345 whose send_command and coupon_add_item are replaced. */
  class FS2100 {
    const base: FS345.FS345

    predicate Valid()
    {
      base.Valid()
    }

    /** FS2100(port, consts), with FS345's constants by default. */
    constructor(port: Port, consts: Option<Constants<Fiscal.UnitType, string>>)
      ensures Valid() && base.serial.port == port
      ensures base.consts == if consts.Some? then consts.value else FS345.FS345Units
    {
      base := new FS345.FS345(port, consts);
    }

    /**
     * FS345.send_command(self, command, extra): the FS345 loop, with
     * CMD_GET_X sent through this class's send_command.
     */
    method BaseSendCommand(command: byte, extra: string) returns (r: Result<string>)
      requires Valid()
      modifies base.serial.port
      ensures var x := BaseSendFrom(old(base.serial.port.pending), [command as char] + extra);
        r == x.result && base.serial.port.pending == x.left &&
        base.serial.port.written == old(base.serial.port.written) + x.sent
      decreases |base.serial.port.pending|, 0
    {
      hide *;
      ValidParts(this);
      var raw := [command as char] + extra;
      assert [FS345.CmdGetX as char] + "" == [FS345.CmdGetX as char];
      ghost var sent: seq<byte> := [];
      while true
        invariant var y := BaseSendFrom(base.serial.port.pending, raw);
          BaseSendFrom(old(base.serial.port.pending), raw) == Step(y.result, y.left, sent + y.sent)
        invariant base.serial.port.written == old(base.serial.port.written) + sent
        invariant |base.serial.port.pending| <= |old(base.serial.port.pending)|
        decreases |base.serial.port.pending|
      {
        ghost var p := base.serial.port.pending;
        ghost var xp := FS345.ExchangeFrom(p, raw);
        BaseSendStep(p, raw);
        var retval := base.Exchange(raw);
        AppendAssoc(old(base.serial.port.written), sent, xp.sent);
        if retval.Err? {
          return Err(retval.error);
        }
        var reply := retval.value;
        var e := if FS345.IsErrorReply(reply) then FS345.HandleError(reply) else None;
        if e.Some? && e.value.code == Some(42) {
          ghost var gx := SendFrom(base.serial.port.pending, [FS345.CmdGetX as char], 0);
          var x := SendCommand(FS345.CmdGetX, "");
          ghost var y := BaseSendFrom(base.serial.port.pending, raw);
          Regroup(old(base.serial.port.written), sent, xp.sent, gx.sent, y.sent);
          if x.Err? {
            return Err(x.error);
          }
          sent := sent + xp.sent + gx.sent;
          continue;
        }
        if e.Some? {
          return Err(e.value);
        }
        return Ok(Slice(reply, 1, |reply|));
      }
    }

    /**
     * send_command(command, extra): up to ten attempts while the device
     * answers busy, then as many replies read and dropped as attempts were
     * refused before the one that counted.
     */
    method SendCommand(command: byte, extra: string) returns (r: Result<string>)
      requires Valid()
      modifies base.serial.port
      ensures var x := SendFrom(old(base.serial.port.pending), [command as char] + extra, 0);
        r == x.result && base.serial.port.pending == x.left &&
        base.serial.port.written == old(base.serial.port.written) + x.sent
      decreases |base.serial.port.pending|, 1
    {
      hide *;
      ValidParts(this);
      var raw := [command as char] + extra;
      ghost var sent: seq<byte> := [];
      var t := 0;
      var retval: Option<string> := None;
      ghost var last: Step<string> := Step(Ok(""), [], []);
      ghost var q: seq<Reply> := [];
      while true
        invariant t < Attempts
        invariant var y := SendFrom(base.serial.port.pending, raw, t);
          SendFrom(old(base.serial.port.pending), raw, 0) == Step(y.result, y.left, sent + y.sent)
        invariant base.serial.port.written == old(base.serial.port.written) + sent
        invariant |base.serial.port.pending| <= |old(base.serial.port.pending)|
        decreases Attempts - t
      {
        ghost var p := base.serial.port.pending;
        last := BaseSendFrom(p, raw);
        var attempt := BaseSendCommand(command, extra);
        AppendAssoc(old(base.serial.port.written), sent, last.sent);
        q := base.serial.port.pending;
        if attempt.Err? && !Busy(attempt.error) {
          RetryFails(p, raw, t, attempt.error, last.left, last.sent);
          return attempt;
        }
        if attempt.Ok? {
          RetryAnswered(p, raw, t, attempt.value, last.left, last.sent);
          retval := Some(attempt.value);
          break;
        }
        if t + 1 == Attempts {
          RetryExhausted(p, raw, t, attempt.error, last.left, last.sent);
          break;
        }
        RetryBusy(p, raw, t, attempt.error, last.left, last.sent);
        AppendAssoc(sent, last.sent, SendFrom(base.serial.port.pending, raw, t + 1).sent);
        sent := sent + last.sent;
        t := t + 1;
      }
      assert SendFrom(old(base.serial.port.pending), raw, 0) == Step(
        var d := DrainFrom(q, t);
        if d.0.Err? then Err(d.0.error) else if retval.None? then Err(Raise(UnboundLocalError)) else Ok(retval.value),
        DrainFrom(q, t).1, sent + last.sent);
      for i := 0 to t
        invariant DrainFrom(base.serial.port.pending, t - i) == DrainFrom(q, t)
        invariant base.serial.port.written == old(base.serial.port.written) + sent + last.sent
      {
        DrainStep(base.serial.port.pending, t - i);
        var reply := base.ReadReply();
        if reply.Err? {
          return Err(reply.error);
        }
      }
      DrainStep(base.serial.port.pending, 0);
      if retval.None? {
        return Err(Raise(UnboundLocalError));
      }
      return Ok(retval.value);
    }

    /** _check_response(retcode, raw). */
    method CheckResponse(retcode: string) returns (r: Result<Unit>)
      ensures r.Ok? <==> ResponseError(retcode).None?
      ensures r.Err? ==> r.error == ResponseError(retcode).value
    {
      hide *;
      ResponseErrorBody(retcode);
      var compatible := Slice(retcode, 1, 3);
      var n := ParseInt(compatible);
      if n.None? {
        return Err(Raise(ValueError));
      }
      if n.value != 0 {
        var e := FS345.HandleError(":E" + compatible);
        if e.Some? {
          return Err(e.value);
        }
      }
      return Ok(Unit);
    }

    /** send_new_command(prefix, command, extra, ignore_error). */
    method SendNewCommand(prefix: string, command: byte, extra: string, ignoreError: bool) returns (r: Result<string>)
      requires Valid()
      modifies base.serial.port
      ensures var x := NewCommandFrom(old(base.serial.port.pending), prefix, command, extra, ignoreError);
        r == x.result && base.serial.port.pending == x.left &&
        base.serial.port.written == old(base.serial.port.written) + x.sent
    {
      var data := [command as char] + extra;
      data := [Fs as char] + prefix + data;
      var checksum := Checksum(data);
      if !IsByteString(data) {
        return Err(Raise(ValueError));
      }
      ChecksumIsByte(data);
      var frame := data + [(checksum as int) as char];
      var w := base.serial.Write(frame);
      if w.Err? {
        return Err(w.error);
      }
      var retval := base.serial.ReadLine();
      if retval.Err? {
        return Err(retval.error);
      }
      var retvalChecksum := base.serial.Read(1);
      if !ignoreError {
        var checked := CheckResponse(retval.value);
        if checked.Err? {
          return Err(checked.error);
        }
      }
      return Ok(Slice(retval.value, 1, |retval.value|));
    }

    /** _get_compatibility_mode: extended command 200 with prefix 'R' and '138'. */
    method GetCompatibilityMode() returns (r: Result<string>)
      requires Valid()
      modifies base.serial.port
      ensures var x := NewCommandFrom(old(base.serial.port.pending), "R", CmdCompatibilityMode, "138", false);
        r == x.result && base.serial.port.pending == x.left &&
        base.serial.port.written == old(base.serial.port.written) + x.sent
    {
      r := SendNewCommand("R", CmdCompatibilityMode, "138", false);
    }

    /** coupon_add_item: the unit, the payload, the extended command, the id in the reply. */
    method CouponAddItem(item: ItemArgs) returns (r: Result<int>)
      requires Valid()
      modifies base.serial.port
      ensures var x := AddItemFrom(old(base.serial.port.pending), base.consts, item);
        r == x.result && base.serial.port.pending == x.left &&
        base.serial.port.written == old(base.serial.port.written) + x.sent
    {
      var unit := UnitField(base.consts, item.unit, item.unitDesc);
      if unit.Err? {
        return Err(unit.error);
      }
      var value := SendNewCommand("F", CmdAddItem, ItemData(item, unit.value), false);
      if value.Err? {
        return Err(value.error);
      }
      r := ItemId(value.value);
    }
  }
}
