/*
 * The Daruma FS345 coupon printer: one-byte commands behind ESC, replies
 * ended by CR, ':E' replies carrying the device's error number, fixed-width
 * payloads, and status bytes read as hexadecimal digits.
 */
module FS345 {
  import opened Common
  import opened Utils
  import opened Serial
  import opened PrinterBase
  import opened Decimals
  import Fiscal

  // ---------------------------------------------------------------------
  // Command codes

  /** CMD_STATUS, written bare, without the ESC prefix. */
  const CmdStatus := "\U{1D}\U{FF}"
  const CmdGetX: byte := 207
  const CmdAddItem: byte := 223
  const CmdGetTaxCodes: byte := 231
  const CmdTotalizeCoupon: byte := 241
  const CmdDescribePaymentForm: byte := 242
  const CmdGetRegistries: byte := 244
  const CmdGetTotalizers: byte := 244

  /** More than this many empty reads, counted over the whole reply, end _read_reply. */
  const RetriesBeforeTimeout := 5

  const Esc := '\U{1B}'
  const Cr := '\r'

  // ---------------------------------------------------------------------
  // Status bits

  function Pow2(k: nat): (p: nat)
    ensures p >= 1
  {
    if k == 0 then 1 else 2 * Pow2(k - 1)
  }

  /** isbitset(value, bit): the character read as one hex digit, bit `bit` of it; int(value, 16) refuses anything else. */
  function IsBitSet(value: char, bit: nat): (r: Result<bool>)
    ensures r.Ok? <==> IsHexDigit(value)
    ensures r.Err? ==> r.error == Raise(ValueError)
  {
    if IsHexDigit(value) then Ok((HexDigitValue(value) / Pow2(bit)) % 2 == 1)
    else Err(Raise(ValueError))
  }

  /** 1 when the bit is set, else 0. */
  function BitOf(value: char, bit: nat): nat
    requires IsHexDigit(value)
  {
    if IsBitSet(value, bit).value then 1 else 0
  }

  lemma {:induction false} Pow2AtLeast16(k: nat)
    requires k >= 4
    ensures Pow2(k) >= 16
  {
    if k > 4 {
      Pow2AtLeast16(k - 1);
    }
  }

  /** The four bits isbitset reads are the hex digit's value; no higher bit is ever set. */
  lemma HexDigitBits(value: char)
    requires IsHexDigit(value)
    ensures HexDigitValue(value) == 8 * BitOf(value, 3) + 4 * BitOf(value, 2) + 2 * BitOf(value, 1) + BitOf(value, 0)
    ensures forall bit: nat :: bit >= 4 ==> IsBitSet(value, bit) == Ok(false)
  {
    var v := HexDigitValue(value);
    assert Pow2(0) == 1 && Pow2(1) == 2 && Pow2(2) == 4 && Pow2(3) == 8;
    assert BitOf(value, 0) == v % 2;
    assert BitOf(value, 1) == (v / 2) % 2;
    assert BitOf(value, 2) == (v / 4) % 2;
    assert BitOf(value, 3) == (v / 8) % 2;
    FourBits(v);
    forall bit: nat | bit >= 4
      ensures IsBitSet(value, bit) == Ok(false)
    {
      Pow2AtLeast16(bit);
      SmallQuotient(v, Pow2(bit));
    }
  }

  lemma SmallQuotient(v: nat, d: nat)
    requires v < 16 <= d
    ensures v / d == 0
  {
  }

  lemma FourBits(v: nat)
    requires v < 16
    ensures v == 8 * ((v / 8) % 2) + 4 * ((v / 4) % 2) + 2 * ((v / 2) % 2) + v % 2
  {
  }

  /** status_check(S, byte, bit): the bit of the status character at position byte. */
  function StatusBit(s: string, index: nat, bit: nat): (r: Result<bool>)
    ensures r.Ok? <==> index < |s| && IsHexDigit(s[index])
    ensures index >= |s| ==> r == Err(Raise(IndexError))
  {
    if index >= |s| then Err(Raise(IndexError)) else IsBitSet(s[index], bit)
  }

  // ---------------------------------------------------------------------
  // Replies

  /**
   * _read_reply, after `timeouts` empty reads and with rep collected: the
   * characters up to CR. The empty reads are counted over the whole reply
   * and never forgiven; more than five raise DriverError.
   */
  function ReplyFrom(p: seq<Reply>, timeouts: nat, rep: string): (r: (Result<string>, seq<Reply>))
    requires timeouts <= RetriesBeforeTimeout + 1
    ensures |r.1| <= |p|
    ensures r.0.Ok? ==> |r.1| < |p|
    decreases |p|, RetriesBeforeTimeout + 1 - timeouts
  {
    if timeouts > RetriesBeforeTimeout then (Err(Raise(DriverError)), p)
    else if |p| == 0 then ReplyFrom(p, timeouts + 1, rep)
    else match p[0]
      case Silence => ReplyFrom(p[1..], timeouts + 1, rep)
      case Byte(b) =>
        if b as char == Cr then (Ok(rep), p[1..])
        else ReplyFrom(p[1..], timeouts, rep + [b as char])
  }

  /** A reply is what was heard up to the first CR, which is consumed and left out. */
  lemma {:induction false} ReplySplits(p: seq<Reply>, timeouts: nat, rep: string)
    requires timeouts <= RetriesBeforeTimeout + 1
    ensures var r := ReplyFrom(p, timeouts, rep);
      r.0.Ok? ==>
      |rep| <= |r.0.value| && r.0.value[..|rep|] == rep && Cr !in r.0.value[|rep|..] &&
      Heard(p) == r.0.value[|rep|..] + [Cr] + Heard(r.1)
    decreases |p|, RetriesBeforeTimeout + 1 - timeouts
  {
    hide Heard;
    if timeouts > RetriesBeforeTimeout {
    } else if |p| == 0 {
      ReplySplits(p, timeouts + 1, rep);
    } else if p[0].Silence? {
      assert ReplyFrom(p, timeouts, rep) == ReplyFrom(p[1..], timeouts + 1, rep);
      HeardSilence(p);
      ReplySplits(p[1..], timeouts + 1, rep);
    } else if p[0].b as char == Cr {
      assert ReplyFrom(p, timeouts, rep) == (Ok(rep), p[1..]);
      HeardByte(p);
      assert rep[..|rep|] == rep && rep[|rep|..] == [];
    } else {
      var c := p[0].b as char;
      var rep' := rep + [c];
      var r := ReplyFrom(p[1..], timeouts, rep');
      assert ReplyFrom(p, timeouts, rep) == r;
      ReplySplits(p[1..], timeouts, rep');
      if r.0.Ok? {
        var line := r.0.value;
        HeardByte(p);
        SplitAfter(line, rep, c);
      }
    }
  }

  lemma HeardByte(p: seq<Reply>)
    requires |p| > 0 && p[0].Byte?
    ensures Heard(p) == [p[0].b as char] + Heard(p[1..])
  {
  }

  lemma HeardSilence(p: seq<Reply>)
    requires |p| > 0 && p[0].Silence?
    ensures Heard(p) == Heard(p[1..])
  {
  }

  lemma SplitAfter(line: string, rep: string, c: char)
    requires |rep| + 1 <= |line| && line[..|rep| + 1] == rep + [c]
    ensures line[..|rep|] == rep && line[|rep|..] == [c] + line[|rep| + 1..]
  {
    assert line[..|rep|] == line[..|rep| + 1][..|rep|];
  }

  /** A device that sends a line and CR without a pause gives that line, whatever empty reads came before. */
  lemma {:induction false} ReplyOfLine(s: string, q: seq<Reply>, timeouts: nat, rep: string)
    requires IsByteString(s) && Cr !in s && timeouts <= RetriesBeforeTimeout
    ensures ReplyFrom(Replies(s + [Cr]) + q, timeouts, rep) == (Ok(rep + s), q)
    decreases |s|
  {
    var p := Replies(s + [Cr]) + q;
    if s == [] {
      assert p[0] == Byte(13) && p[1..] == q;
      assert (13 as byte) as char == Cr;
      assert ReplyFrom(p, timeouts, rep) == (Ok(rep), p[1..]);
      assert rep + s == rep;
    } else {
      assert p[0] == Byte(s[0] as int as byte) && s[0] != Cr;
      assert p[1..] == Replies(s[1..] + [Cr]) + q;
      ReplyOfLine(s[1..], q, timeouts, rep + [s[0]]);
      assert rep + [s[0]] + s[1..] == rep + s;
    }
  }

  /** k empty reads only add to the count while it stays within the limit. */
  lemma {:induction false} SilencesAdd(k: nat, p: seq<Reply>, timeouts: nat, rep: string)
    requires timeouts + k <= RetriesBeforeTimeout + 1
    ensures ReplyFrom(Fill(Silence, k) + p, timeouts, rep) == ReplyFrom(p, timeouts + k, rep)
    decreases k
  {
    if k > 0 {
      FillCons(Silence, k);
      hide Fill;
      var q := Fill(Silence, k) + p;
      assert q[0] == Silence && q[1..] == Fill(Silence, k - 1) + p;
      assert ReplyFrom(q, timeouts, rep) == ReplyFrom(q[1..], timeouts + 1, rep);
      hide ReplyFrom;
      SilencesAdd(k - 1, p, timeouts + 1, rep);
    } else {
      assert Fill(Silence, k) + p == p;
    }
  }

  /**
   * The count is never reset: three empty reads before a character and three
   * after it time out, where readline, which forgives a pause once a
   * character arrives, reads the line.
   */
  lemma PausesAccumulate(c: char, q: seq<Reply>)
    requires c as int < 256 && c != Cr
    ensures ReplyFrom(Fill(Silence, 3) + [Byte(c as int as byte)] + Fill(Silence, 3) + [Byte(13)] + q, 0, "") ==
      (Err(Raise(DriverError)), [Byte(13)] + q)
    ensures ReadLineFrom(Fill(Silence, 3) + [Byte(c as int as byte)] + Fill(Silence, 3) + [Byte(13)] + q, 0, "", Cr) ==
      (Ok([c]), q)
  {
    var b: byte := c as int as byte;
    assert b as char == c && "" + [c] == [c];
    var last := [Byte(13)] + q;
    var tail := Fill(Silence, 3) + last;
    assert Fill(Silence, 3) + [Byte(b)] + Fill(Silence, 3) + [Byte(13)] + q == Fill(Silence, 3) + ([Byte(b)] + tail);
    assert ([Byte(b)] + tail)[0] == Byte(b) && ([Byte(b)] + tail)[1..] == tail;
    assert last[0] == Byte(13) && last[1..] == q;
    SilencesAdd(3, [Byte(b)] + tail, 0, "");
    assert ReplyFrom([Byte(b)] + tail, 3, "") == ReplyFrom(tail, 3, [c]);
    SilencesAdd(3, last, 3, [c]);
    SilencesCount(3, [Byte(b)] + tail, 0, "", Cr);
    assert ReadLineFrom([Byte(b)] + tail, 3, "", Cr) == ReadLineFrom(tail, 0, [c], Cr);
    SilencesCount(3, last, 0, [c], Cr);
    assert ReadLineFrom(last, 3, [c], Cr) == (Ok([c]), q);
  }

  // ---------------------------------------------------------------------
  // Device errors

  /** handle_error's table: the exception for an error number; 21 (no paper) is only logged. */
  function ErrorFor(code: int): (r: Option<Exception>)
    ensures r.None? <==> code == 21
    ensures code == 23 ==> r == Some(Raise(PendingReduceZ))
    ensures r.Some? && code != 23 ==> r.value.code == Some(code)
    ensures r.Some? && code !in {10, 11, 12, 15, 23} ==> r.value.cls == DriverError
  {
    if code == 10 then Some(RaiseCode(CouponOpenError, code))
    else if code == 11 || code == 12 then Some(RaiseCode(CouponNotOpenError, code))
    else if code == 15 then Some(RaiseCode(CancelItemError, code))
    else if code == 21 then None
    else if code == 23 then Some(Raise(PendingReduceZ))
    else Some(RaiseCode(DriverError, code))
  }

  /** handle_error(error_value): int() of what follows ':E', then the table; a non-numeral raises ValueError. */
  function HandleError(errorValue: string): Option<Exception>
  {
    match ParseInt(Slice(errorValue, 2, |errorValue|))
    case None => Some(Raise(ValueError))
    case Some(code) => ErrorFor(code)
  }

  /** A reply that starts with ':E' reports a device error. */
  predicate IsErrorReply(retval: string)
  {
    |retval| >= 2 && retval[..2] == ":E"
  }

  // ---------------------------------------------------------------------
  // Commands

  /** What send_command writes: CMD_PREFIX (ESC), chr(command) + extra, CMD_SUFFIX (nothing). */
  function Frame(raw: string): string
  {
    [Esc] + raw
  }

  /** The bytes of the frame. */
  function FrameBytes(raw: string): seq<byte>
    requires IsByteString(Frame(raw))
  {
    Str2Bytes(Frame(raw)).value
  }

  /**
   * send_command on the replies p, with raw = chr(command) + extra: write the
   * frame and read a reply; an error reply goes through handle_error, and
   * error 42 (read X not yet sent) sends CMD_GET_X and then the same frame
   * again, as often as the device asks. The result drops the reply's first
   * character.
   */
  function SendFrom(p: seq<Reply>, raw: string): (r: Step<string>)
    ensures |r.left| <= |p|
    decreases |p|
  {
    if !IsByteString(Frame(raw)) then Step(Err(Raise(ValueError)), p, [])
    else
      var sent := FrameBytes(raw);
      var reply := ReplyFrom(p, 0, "");
      if reply.0.Err? then Step(Err(reply.0.error), reply.1, sent)
      else
        var retval := reply.0.value;
        var e := if IsErrorReply(retval) then HandleError(retval) else None;
        if e.None? then Step(Ok(Slice(retval, 1, |retval|)), reply.1, sent)
        else if e.value.code != Some(42) then Step(Err(e.value), reply.1, sent)
        else
          var x := SendFrom(reply.1, [CmdGetX as char]);
          if x.result.Err? then Step(Err(x.result.error), x.left, sent + x.sent)
          else
            var y := SendFrom(x.left, raw);
            Step(y.result, y.left, sent + x.sent + y.sent)
  }

  /** A plain reply (not ':E') comes back without its first character; the frame is ESC and the raw command. */
  lemma PlainReply(raw: string, s: string, q: seq<Reply>)
    requires IsByteString(Frame(raw)) && IsByteString(s) && Cr !in s && !IsErrorReply(s)
    ensures SendFrom(Replies(s + [Cr]) + q, raw) == Step(Ok(Slice(s, 1, |s|)), q, FrameBytes(raw))
  {
    ReplyOfLine(s, q, 0, "");
    assert "" + s == s;
  }

  /** The reply ':E' and an error number. */
  function ErrorReply(code: nat): (s: string)
    ensures IsByteString(s) && Cr !in s && IsErrorReply(s)
    ensures Slice(s, 2, |s|) == NatToString(code)
  {
    var s := ":E" + NatToString(code);
    assert s[..2] == ":E" && s[2..] == NatToString(code);
    s
  }

  lemma ErrorReplyParsed(code: nat)
    ensures HandleError(ErrorReply(code)) == ErrorFor(code)
  {
    ParseDigits(NatToString(code));
    DigitsValueOfNatToString(code);
  }

  /**
   * An error reply raises handle_error's exception for its number, except 21,
   * which is only logged, so that the reply itself comes back as the value.
   */
  lemma ErrorReplyRaises(raw: string, code: nat, q: seq<Reply>)
    requires IsByteString(Frame(raw)) && code != 42
    ensures var x := SendFrom(Replies(ErrorReply(code) + [Cr]) + q, raw);
      x.left == q && x.sent == FrameBytes(raw) &&
      x.result == if code == 21 then Ok("E" + NatToString(code)) else Err(ErrorFor(code).value)
  {
    hide ReplyFrom, HandleError, Replies, Slice, NatToString, ErrorFor, Str2Bytes, IsByteString, Frame;
    var s := ErrorReply(code);
    ReplyOfLine(s, q, 0, "");
    assert "" + s == s;
    ErrorReplyParsed(code);
    ErrorReplyTail(code);
    assert ErrorFor(code).None? <==> code == 21;
    assert ErrorFor(code).Some? ==> ErrorFor(code).value.code != Some(42);
  }

  lemma ErrorReplyTail(code: nat)
    ensures Slice(ErrorReply(code), 1, |ErrorReply(code)|) == "E" + NatToString(code)
  {
  }

  /**
   * The replies of a device that answers k times ':E42' (read X not yet
   * sent), each followed by the reply g to the CMD_GET_X that error asks for,
   * and then the replies p.
   */
  function ReadXRounds(k: nat, g: string, p: seq<Reply>): seq<Reply>
    requires IsByteString(g)
  {
    if k == 0 then p else Replies(ErrorReply(42) + [Cr]) + (Replies(g + [Cr]) + ReadXRounds(k - 1, g, p))
  }

  /** What the host writes over those k rounds: the frame and a CMD_GET_X each time, then the frame once more. */
  function ReadXFrames(k: nat, raw: string): seq<byte>
    requires IsByteString(Frame(raw))
  {
    if k == 0 then FrameBytes(raw) else FrameBytes(raw) + FrameBytes([CmdGetX as char]) + ReadXFrames(k - 1, raw)
  }

  /**
   * Error 42 has no retry bound: after any number k of ':E42' replies, each
   * answered by a CMD_GET_X, the command is sent once more and its plain
   * reply is the result.
   */
  lemma {:induction false} ReadXThenResend(k: nat, raw: string, g: string, s: string, q: seq<Reply>)
    requires IsByteString(Frame(raw))
    requires IsByteString(g) && Cr !in g && !IsErrorReply(g)
    requires IsByteString(s) && Cr !in s && !IsErrorReply(s)
    ensures SendFrom(ReadXRounds(k, g, Replies(s + [Cr]) + q), raw) == Step(Ok(Slice(s, 1, |s|)), q, ReadXFrames(k, raw))
    decreases k
  {
    hide *;
    ByteLine(s);
    if k == 0 {
      ScriptUnfolds(k, raw, g, Replies(s + [Cr]) + q);
      PlainReply(raw, s, q);
    } else {
      ReadXThenResend(k - 1, raw, g, s, q);
      ReadXStep(k, raw, g, Replies(s + [Cr]) + q, Ok(Slice(s, 1, |s|)), q);
    }
  }

  /** The inductive step: a result reached after k - 1 rounds is reached after k, at the cost of a frame and a CMD_GET_X more. */
  lemma ReadXStep(k: nat, raw: string, g: string, p: seq<Reply>, result: Result<string>, q: seq<Reply>)
    requires k > 0 && IsByteString(Frame(raw))
    requires IsByteString(g) && Cr !in g && !IsErrorReply(g)
    requires SendFrom(ReadXRounds(k - 1, g, p), raw) == Step(result, q, ReadXFrames(k - 1, raw))
    ensures SendFrom(ReadXRounds(k, g, p), raw) == Step(result, q, ReadXFrames(k, raw))
  {
    hide *;
    ScriptUnfolds(k, raw, g, p);
    ResendRound(k, raw, g, p);
  }

  lemma ScriptUnfolds(k: nat, raw: string, g: string, p: seq<Reply>)
    requires IsByteString(Frame(raw)) && IsByteString(g)
    ensures k == 0 ==> ReadXRounds(k, g, p) == p && ReadXFrames(k, raw) == FrameBytes(raw)
    ensures k > 0 ==> ReadXFrames(k, raw) == FrameBytes(raw) + FrameBytes([CmdGetX as char]) + ReadXFrames(k - 1, raw)
  {
  }

  /** One more ':E42' round in front costs a frame and a CMD_GET_X and changes nothing else. */
  lemma ResendRound(k: nat, raw: string, g: string, p: seq<Reply>)
    requires k > 0 && IsByteString(Frame(raw))
    requires IsByteString(g) && Cr !in g && !IsErrorReply(g)
    ensures var y := SendFrom(ReadXRounds(k - 1, g, p), raw);
      SendFrom(ReadXRounds(k, g, p), raw) == Step(y.result, y.left, FrameBytes(raw) + FrameBytes([CmdGetX as char]) + y.sent)
  {
    hide SendFrom, Replies, FrameBytes, ErrorReply, IsByteString, Frame, Slice;
    ResendStep(raw, g, ReadXRounds(k - 1, g, p));
  }

  lemma ByteLine(s: string)
    requires IsByteString(s)
    ensures IsByteString(s + [Cr])
  {
  }

  lemma GetXFrame()
    ensures IsByteString(Frame([CmdGetX as char]))
  {
  }

  /** One round of error 42 answered: the error reply and the reply to CMD_GET_X are consumed, then the command is resent. */
  lemma ResendStep(raw: string, g: string, later: seq<Reply>)
    requires IsByteString(Frame(raw))
    requires IsByteString(g) && Cr !in g && !IsErrorReply(g)
    ensures var y := SendFrom(later, raw);
      SendFrom(Replies(ErrorReply(42) + [Cr]) + (Replies(g + [Cr]) + later), raw) ==
      Step(y.result, y.left, FrameBytes(raw) + FrameBytes([CmdGetX as char]) + y.sent)
  {
    var rest := Replies(g + [Cr]) + later;
    ReplyOfLine(ErrorReply(42), rest, 0, "");
    assert "" + ErrorReply(42) == ErrorReply(42);
    ErrorReplyParsed(42);
    GetXFrame();
    PlainReply([CmdGetX as char], g, later);
    hide ReplyFrom, HandleError, ErrorReply, Replies;
  }


  // ---------------------------------------------------------------------
  // Status

  /** The bytes of CMD_STATUS. */
  const StatusBytes: seq<byte> := [0x1D, 0xFF]

  /** _get_status on the replies p: CMD_STATUS is written as it is, with no ESC, and the reply is returned whole. */
  function StatusFrom(p: seq<Reply>): (r: Step<string>)
    ensures |r.left| <= |p| && r.sent == StatusBytes
    ensures r.result.Ok? ==> |r.left| < |p|
  {
    var reply := ReplyFrom(p, 0, "");
    Step(reply.0, reply.1, StatusBytes)
  }

  /** has_pending_reduce() with no status given: a fresh status, bit 1 of its third character. */
  function PendingReduceFrom(p: seq<Reply>): (r: Step<bool>)
    ensures |r.left| <= |p| && r.sent == StatusBytes
  {
    var st := StatusFrom(p);
    if st.result.Err? then Step(Err(st.result.error), st.left, st.sent)
    else Step(StatusBit(st.result.value, 2, 1), st.left, st.sent)
  }

  /**
   * The bits _check_status accepts: no mechanical failure (1, 2), authenticated
   * (1, 1), paper present (1, 0), online (2, 3) and no reduce Z emitted (6, 1).
   */
  predicate StatusHealthy(status: string)
  {
    |status| > 6 && IsHexDigit(status[1]) && IsHexDigit(status[2]) && IsHexDigit(status[6]) &&
    BitOf(status[1], 2) == 0 && BitOf(status[1], 1) == 1 && BitOf(status[1], 0) == 0 &&
    BitOf(status[2], 3) == 0 && BitOf(status[6], 1) == 0
  }

  /**
   * The exception _check_status raises from the status bits, examined in the
   * source's order; a missing or non-hex character raises from status_check
   * itself. Bit (2, 0), almost out of paper, is only logged.
   */
  function StatusFault(status: string): (r: Option<Exception>)
    ensures r.None? <==> StatusHealthy(status)
    ensures |status| <= 1 ==> r == Some(Raise(IndexError))
    ensures |status| > 1 && IsHexDigit(status[1]) && BitOf(status[1], 2) == 1 ==> r == Some(Raise(HardwareFailure))
  {
    match StatusBit(status, 1, 2)
    case Err(e) => Some(e)
    case Ok(true) => Some(Raise(HardwareFailure))
    case Ok(false) =>
      match StatusBit(status, 1, 1)
      case Err(e) => Some(e)
      case Ok(false) => Some(Raise(AuthenticationFailure))
      case Ok(true) =>
        match StatusBit(status, 1, 0)
        case Err(e) => Some(e)
        case Ok(true) => Some(Raise(OutofPaperError))
        case Ok(false) =>
          match StatusBit(status, 2, 3)
          case Err(e) => Some(e)
          case Ok(true) => Some(Raise(PrinterOfflineError))
          case Ok(false) =>
            match StatusBit(status, 6, 1)
            case Err(e) => Some(e)
            case Ok(true) => Some(Raise(ReduceZError))
            case Ok(false) => None
  }

  /** A healthy status has 2 or 10 as its second character's value: only bit 3, the cash drawer, is free. */
  lemma HealthyPrinterDigit(status: string)
    requires StatusHealthy(status)
    ensures HexDigitValue(status[1]) == 2 || HexDigitValue(status[1]) == 10
  {
    HexDigitBits(status[1]);
  }

  /**
   * _check_status on the replies p: the status must start with ':'; then a
   * second status is read for the pending reduce Z; then the bits. The
   * first status is the result.
   */
  function CheckStatusFrom(p: seq<Reply>): (r: Step<string>)
    ensures |r.left| <= |p|
  {
    var st := StatusFrom(p);
    if st.result.Err? then Step(Err(st.result.error), st.left, st.sent)
    else
      var status := st.result.value;
      if |status| == 0 then Step(Err(Raise(IndexError)), st.left, st.sent)
      else if status[0] != ':' then Step(Err(Raise(HardwareFailure)), st.left, st.sent)
      else
        var pending := PendingReduceFrom(st.left);
        var sent := st.sent + pending.sent;
        if pending.result.Err? then Step(Err(pending.result.error), pending.left, sent)
        else if pending.result.value then Step(Err(Raise(PendingReduceZ)), pending.left, sent)
        else
          var fault := StatusFault(status);
          if fault.Some? then Step(Err(fault.value), pending.left, sent)
          else Step(Ok(status), pending.left, sent)
  }

  /** _verify_coupon_open on the replies p: a fresh status whose bit (4, 2) says a coupon is open. */
  function VerifyOpenFrom(p: seq<Reply>): (r: Step<Unit>)
    ensures |r.left| <= |p| && r.sent == StatusBytes
  {
    var st := StatusFrom(p);
    if st.result.Err? then Step(Err(st.result.error), st.left, st.sent)
    else
      match StatusBit(st.result.value, 4, 2)
      case Err(e) => Step(Err(e), st.left, st.sent)
      case Ok(open) => Step(if open then Ok(Unit) else Err(Raise(CouponNotOpenError)), st.left, st.sent)
  }

  /** A status reply read whole: the line before CR, the rest left. */
  lemma StatusOfLine(s: string, q: seq<Reply>)
    requires IsByteString(s) && Cr !in s
    ensures StatusFrom(Replies(s + [Cr]) + q) == Step(Ok(s), q, StatusBytes)
  {
    ReplyOfLine(s, q, 0, "");
    assert "" + s == s;
  }

  /**
   * With two status replies s1 and s2, _check_status passes exactly when s1
   * starts with ':' and has healthy bits and s2 shows no pending reduce Z;
   * it then gives s1. Both status commands are written and both replies
   * consumed, whatever the outcome, once s1 starts with ':'.
   */
  lemma StatusAccepted(s1: string, s2: string, q: seq<Reply>)
    requires IsByteString(s1) && Cr !in s1 && IsByteString(s2) && Cr !in s2
    requires s1 != [] && s1[0] == ':'
    ensures var x := CheckStatusFrom(Replies(s1 + [Cr]) + (Replies(s2 + [Cr]) + q));
      x.left == q && x.sent == StatusBytes + StatusBytes &&
      (x.result.Ok? <==> StatusHealthy(s1) && StatusBit(s2, 2, 1) == Ok(false)) &&
      (x.result.Ok? ==> x.result.value == s1)
  {
    StatusOfLine(s1, Replies(s2 + [Cr]) + q);
    StatusOfLine(s2, q);
    hide ReplyFrom, Replies, StatusFrom;
  }

  // ---------------------------------------------------------------------
  // Coupon items

  /** FS345Constants: the two-character unit codes. */
  const FS345Units: Constants<Fiscal.UnitType, string> :=
    Constants([(Fiscal.Weight, "Kg"), (Fiscal.Meters, "m "), (Fiscal.Liters, "Lt"), (Fiscal.EmptyUnit, "  ")])

  /**
   * '%2s%13s%d%04d%010d%08d%s%s\xff': tax code, item code (at most 13 chars),
   * the surcharge flag, the adjustment in cents, the price and the quantity
   * in thousandths, the unit and the description (at most 174 chars).
   */
  function ItemPayload(taxcode: string, code: string, flag: int, cents: int, price: int, qty: int,
                       unit: string, description: string): string
  {
    PadLeft(taxcode, 2, ' ') + PadLeft(Slice(code, 0, 13), 13, ' ') + IntToString(flag) +
    FormatZeroPadded(cents, 4) + FormatZeroPadded(price, 10) + FormatZeroPadded(qty, 8) +
    unit + Slice(description, 0, 174) + "\U{FF}"
  }

  /**
   * coupon_add_item's payload: flag 1 with the surcharge when there is one,
   * else flag 0 with the discount; an empty code becomes '-'; amounts are
   * truncated as int() does.
   */
  function ItemData(item: ItemArgs, unit: string): string
  {
    var flag := if item.surcharge != 0.0 then 1 else 0;
    var adjustment := if item.surcharge != 0.0 then item.surcharge else item.discount;
    var code := if item.code == "" then "-" else item.code;
    ItemPayload(item.taxcode, code, flag, Trunc(adjustment * 100.0), Trunc(item.price * 1000.0),
      Trunc(item.quantity * 1000.0), unit, item.description)
  }

  /** int(value[1:4]): the item id in the reply. */
  function ItemId(value: string): (r: Result<int>)
    ensures r.Err? ==> r.error == Raise(ValueError)
  {
    match ParseInt(Slice(value, 1, 4))
    case None => Err(Raise(ValueError))
    case Some(n) => Ok(n)
  }

  /** coupon_add_item on the replies p: the unit, the CMD_ADD_ITEM_3L13D53U command, then the id. */
  function AddItemFrom(p: seq<Reply>, consts: Constants<Fiscal.UnitType, string>, item: ItemArgs): (r: Step<int>)
    ensures |r.left| <= |p|
  {
    var unit := UnitText(consts, item.unit, item.unitDesc);
    if unit.Err? then Step(Err(unit.error), p, [])
    else
      var x := SendFrom(p, [CmdAddItem as char] + ItemData(item, unit.value));
      if x.result.Err? then Step(Err(x.result.error), x.left, x.sent)
      else Step(ItemId(x.result.value), x.left, x.sent)
  }

  /** '%0Nd' of a number below 10^N is N digits that read back as the number. */
  lemma ZeroPaddedField(n: nat, w: nat)
    requires 1 <= w && n < Pow10(w)
    ensures |FormatZeroPadded(n, w)| == w && AllDigits(FormatZeroPadded(n, w))
    ensures ParseInt(FormatZeroPadded(n, w)) == Some(n)
  {
    NatToStringLength(n, w);
    var padded := ZeroPaddedDigits(n, w);
    ParseFormatZeroPadded(n, w);
  }

  /** Where each field of the item payload starts and ends. */
  lemma ItemLayout(t: string, k: string, f: string, x: string, y: string, z: string, u: string, d: string, e: string)
    requires |t| == 2 && |k| == 13 && |f| == 1 && |x| == 4 && |y| == 10 && |z| == 8 && |e| == 1
    ensures var s := t + k + f + x + y + z + u + d + e;
      |s| == 38 + |u| + |d| + 1 &&
      s[..2] == t && s[2..15] == k && s[15] == f[0] && s[16..20] == x && s[20..30] == y && s[30..38] == z &&
      s[38..38 + |u|] == u && s[38 + |u|..|s| - 1] == d && s[|s| - 1] == e[0]
  {
    var s := t + k + f + x + y + z + u + d + e;
    assert s[..2] == t;
    assert s[2..15] == k;
    assert s[16..20] == x;
    assert s[20..30] == y;
    assert s[30..38] == z;
    assert s[38..38 + |u|] == u;
    assert s[38 + |u|..|s| - 1] == d;
  }

  /**
   * The device reads the item payload by position: a two-char tax code and
   * a code of at most 13 chars are right-aligned in their fields, the flag
   * is one digit, and each amount that fits its width reads back as
   * itself; the unit, the description and 0xFF follow.
   */
  lemma ItemPayloadFields(taxcode: string, code: string, flag: nat, cents: nat, price: nat, qty: nat,
                          unit: string, description: string)
    requires |taxcode| == 2 && |code| <= 13 && flag < 10
    requires cents < Pow10(4) && price < Pow10(10) && qty < Pow10(8)
    ensures var s := ItemPayload(taxcode, code, flag, cents, price, qty, unit, description);
      |s| == 38 + |unit| + |Slice(description, 0, 174)| + 1 &&
      s[..2] == taxcode && s[2..15] == PadLeft(code, 13, ' ') && s[15] as int == '0' as int + flag &&
      ParseInt(s[16..20]) == Some(cents) && ParseInt(s[20..30]) == Some(price) && ParseInt(s[30..38]) == Some(qty) &&
      s[38..38 + |unit|] == unit && s[38 + |unit|..|s| - 1] == Slice(description, 0, 174) && s[|s| - 1] == '\U{FF}'
  {
    assert Slice(code, 0, 13) == code;
    var t := PadLeft(taxcode, 2, ' ');
    assert t == t[|t| - |taxcode|..] == taxcode;
    assert IntToString(flag) == [DigitChar(flag)];
    hide PadLeft, FormatZeroPadded, ParseInt, Slice, IntToString;
    ZeroPaddedField(cents, 4);
    ZeroPaddedField(price, 10);
    ZeroPaddedField(qty, 8);
    ItemLayout(t, PadLeft(code, 13, ' '), IntToString(flag), FormatZeroPadded(cents, 4), FormatZeroPadded(price, 10),
      FormatZeroPadded(qty, 8), unit, Slice(description, 0, 174), "\U{FF}");
  }

  /** The id is the three digits after the reply's first character. */
  lemma ItemIdRead(value: string)
    requires |value| >= 4 && AllDigits(value[1..4])
    ensures ItemId(value) == Ok(DigitsValue(value[1..4]))
  {
    ParseDigits(value[1..4]);
  }

  /** A unit the constants do not know raises before anything is written. */
  lemma UnknownUnitSendsNothing(p: seq<Reply>, consts: Constants<Fiscal.UnitType, string>, item: ItemArgs)
    requires item.unit != Fiscal.CustomUnit && item.unit !in GetItems(consts)
    ensures AddItemFrom(p, consts, item) == Step(Err(Raise(ValueError)), p, [])
  {
  }

  // ---------------------------------------------------------------------
  // Totalizing and payments

  /** _check_status then _verify_coupon_open, as coupon_totalize and coupon_add_payment begin. */
  function ReadyFrom(p: seq<Reply>): (r: Step<Unit>)
    ensures |r.left| <= |p|
  {
    var c := CheckStatusFrom(p);
    if c.result.Err? then Step(Err(c.result.error), c.left, c.sent)
    else
      var v := VerifyOpenFrom(c.left);
      Step(v.result, v.left, c.sent + v.sent)
  }

  /** coupon_totalize's mode and amount: a surcharge needs ICMS and uses mode 3; otherwise mode 1 with the discount. */
  function TotalizeMode(discount: real, surcharge: real, taxcode: Fiscal.TaxType): (r: Result<(int, real)>)
    ensures r.Err? <==> surcharge != 0.0 && taxcode != Fiscal.Icms
    ensures r.Err? ==> r.error == Raise(ValueError)
    ensures r.Ok? ==> (r.value.0 == 3 <==> surcharge != 0.0) && (r.value.0 == 1 || r.value.0 == 3)
    ensures r.Ok? ==> r.value.1 == if surcharge != 0.0 then surcharge else discount
  {
    if surcharge != 0.0 then
      if taxcode == Fiscal.Icms then Ok((3, surcharge)) else Err(Raise(ValueError))
    else if discount != 0.0 then Ok((1, discount))
    else Ok((1, 0.0))
  }

  /** '%s%012d': the mode and the amount in cents. */
  function TotalizeData(mode: int, value: real): string
  {
    IntToString(mode) + FormatZeroPadded(Trunc(value * 100.0), 12)
  }

  /** Decimal(rv) / Decimal('1e2'); a reply Decimal cannot read raises InvalidOperation. */
  function Hundredths(rv: string): (r: Result<real>)
    ensures r.Ok? <==> ParseDecimal(rv).Some?
    ensures r.Ok? ==> r.value * 100.0 == ParseDecimal(rv).value
    ensures r.Err? ==> r.error == Raise(InvalidOperation)
  {
    match ParseDecimal(rv)
    case None => Err(Raise(InvalidOperation))
    case Some(v) => Ok(v / 100.0)
  }

  /** coupon_totalize on the replies p: the status checks, the mode, CMD_TOTALIZE_COUPON, then the total. */
  function TotalizeFrom(p: seq<Reply>, discount: real, surcharge: real, taxcode: Fiscal.TaxType): (r: Step<real>)
    ensures |r.left| <= |p|
  {
    var ready := ReadyFrom(p);
    if ready.result.Err? then Step(Err(ready.result.error), ready.left, ready.sent)
    else
      match TotalizeMode(discount, surcharge, taxcode)
      case Err(e) => Step(Err(e), ready.left, ready.sent)
      case Ok(mode) =>
        var x := SendFrom(ready.left, [CmdTotalizeCoupon as char] + TotalizeData(mode.0, mode.1));
        if x.result.Err? then Step(Err(x.result.error), x.left, ready.sent + x.sent)
        else Step(Hundredths(x.result.value), x.left, ready.sent + x.sent)
  }

  /** A surcharge without ICMS raises ValueError once the checks pass, and the totalize command is never written. */
  lemma SurchargeNeedsIcms(p: seq<Reply>, discount: real, surcharge: real, taxcode: Fiscal.TaxType)
    requires surcharge != 0.0 && taxcode != Fiscal.Icms
    ensures var x := TotalizeFrom(p, discount, surcharge, taxcode);
      x.sent == ReadyFrom(p).sent && x.left == ReadyFrom(p).left && x.result.Err? &&
      (ReadyFrom(p).result.Ok? ==> x.result.error == Raise(ValueError))
  {
  }

  /** The totalize payload is the mode digit and twelve digits that read back as the amount in cents. */
  lemma TotalizeDataFields(mode: int, value: real)
    requires mode == 1 || mode == 3
    requires 0 <= Trunc(value * 100.0) < Pow10(12)
    ensures var s := TotalizeData(mode, value);
      |s| == 13 && s[0] as int == '0' as int + mode && ParseInt(s[1..]) == Some(Trunc(value * 100.0))
  {
    var s := TotalizeData(mode, value);
    var digits := FormatZeroPadded(Trunc(value * 100.0), 12);
    assert IntToString(mode) == [DigitChar(mode)];
    assert s == [DigitChar(mode)] + digits;
    hide TotalizeData, FormatZeroPadded, ParseInt, IntToString;
    assert s[1..] == digits;
    ZeroPaddedField(Trunc(value * 100.0), 12);
  }

  /** A reply of digits is a whole number of cents. */
  lemma HundredthsOfDigits(d: string)
    requires d != [] && AllDigits(d)
    ensures Hundredths(d) == Ok(DigitsValue(d) as real / 100.0)
  {
    hide ParseDecimal;
    ParseDecimalDigits(d);
  }

  /** '%c%012d%s\xff': the payment form letter, the amount in cents and at most 48 chars of description. */
  function PaymentData(form: char, value: real, description: string): string
  {
    [form] + FormatZeroPadded(Trunc(value * 100.0), 12) + Slice(description, 0, 48) + "\U{FF}"
  }

  /** _add_payment's reply: a reply starting with 'N' carries eight characters before the amount. */
  function PaymentAmount(rv: string): (r: Result<real>)
    ensures rv == [] ==> r == Err(Raise(IndexError))
    ensures rv != [] && rv[0] != 'N' ==> r == Hundredths(rv)
    ensures rv != [] && rv[0] == 'N' ==> r == Hundredths(Slice(rv, 8, |rv|))
  {
    if |rv| == 0 then Err(Raise(IndexError))
    else if rv[0] == 'N' then Hundredths(Slice(rv, 8, |rv|))
    else Hundredths(rv)
  }

  /** coupon_add_payment on the replies p: the status checks, CMD_DESCRIBE_PAYMENT_FORM, then the amount. */
  function AddPaymentFrom(p: seq<Reply>, form: char, value: real, description: string): (r: Step<real>)
    ensures |r.left| <= |p|
  {
    var ready := ReadyFrom(p);
    if ready.result.Err? then Step(Err(ready.result.error), ready.left, ready.sent)
    else
      var x := SendFrom(ready.left, [CmdDescribePaymentForm as char] + PaymentData(form, value, description));
      if x.result.Err? then Step(Err(x.result.error), x.left, ready.sent + x.sent)
      else Step(PaymentAmount(x.result.value), x.left, ready.sent + x.sent)
  }

  /** The payment payload: the form letter, twelve digits that read back as the cents, the description cut to 48, 0xFF. */
  lemma PaymentDataFields(form: char, value: real, description: string)
    requires 0 <= Trunc(value * 100.0) < Pow10(12)
    ensures var s := PaymentData(form, value, description);
      |s| == 14 + |Slice(description, 0, 48)| && s[0] == form &&
      ParseInt(s[1..13]) == Some(Trunc(value * 100.0)) &&
      s[13..|s| - 1] == Slice(description, 0, 48) && s[|s| - 1] == '\U{FF}'
  {
    var digits := FormatZeroPadded(Trunc(value * 100.0), 12);
    var d := Slice(description, 0, 48);
    assert PaymentData(form, value, description) == [form] + digits + d + "\U{FF}";
    hide PaymentData, FormatZeroPadded, Slice, ParseInt;
    ZeroPaddedField(Trunc(value * 100.0), 12);
    PaymentLayout([form], digits, d, "\U{FF}");
  }

  /** Where each field of the payment payload starts and ends. */
  lemma PaymentLayout(m: string, x: string, d: string, e: string)
    requires |m| == 1 && |x| == 12 && |e| == 1
    ensures var s := m + x + d + e;
      |s| == 14 + |d| && s[0] == m[0] && s[1..13] == x && s[13..|s| - 1] == d && s[|s| - 1] == e[0]
  {
    var s := m + x + d + e;
    assert s[1..13] == x;
    assert s[13..|s| - 1] == d;
  }

  /** An 'N' reply: the eight leading characters are dropped and the digits after them are the cents. */
  lemma PaymentAmountAfterN(head: string, d: string)
    requires |head| == 7 && d != [] && AllDigits(d)
    ensures PaymentAmount("N" + head + d) == Ok(DigitsValue(d) as real / 100.0)
  {
    var rv := "N" + head + d;
    assert Slice(rv, 8, |rv|) == d;
    HundredthsOfDigits(d);
  }

  // ---------------------------------------------------------------------
  // Tax constants

  /** A tax constant: the tax type, the device code and the rate, when it has one. */
  type TaxConstant = (Fiscal.TaxType, string, Option<real>)

  /** How many five-character records get_tax_constants reads. */
  const TaxRecordCount := 14

  /** The constants get_tax_constants always appends. */
  const TaxTail: seq<TaxConstant> :=
    [(Fiscal.Substitution, "Fb", None), (Fiscal.Exemption, "Ib", None), (Fiscal.NoTax, "Nb", None)]

  predicate IsUpperRegister(c: char) { 'A' <= c <= 'P' }
  predicate IsLowerRegister(c: char) { 'a' <= c <= 'p' }

  /** reg.lower() for a register letter. */
  function LowerRegister(c: char): (l: char)
    ensures IsUpperRegister(c) || IsLowerRegister(c) ==> IsLowerRegister(l)
  {
    if IsUpperRegister(c) then (c as int + 32) as char else c
  }

  /** A register's constant: a custom or service type, 'T' and a lower-case letter, and a rate. */
  predicate RegisterConstant(c: TaxConstant)
  {
    (c.0 == Fiscal.CustomTax || c.0 == Fiscal.Service) && |c.1| == 2 && c.1[0] == 'T' && IsLowerRegister(c.1[1]) && c.2.Some?
  }

  /**
   * A tax record's register letter and four characters of rate: A-P is a
   * custom tax, a-p a service tax and anything else an AssertionError,
   * checked before the rate; '////' marks an unused register; otherwise the
   * rate is read with its '.' removed and divided by 100.
   */
  function TaxRecordOf(reg: char, value: string): (r: Result<Option<TaxConstant>>)
    ensures !IsUpperRegister(reg) && !IsLowerRegister(reg) ==> r == Err(Raise(AssertionError))
    ensures r.Ok? && r.value.Some? ==>
      (r.value.value.0 == Fiscal.CustomTax <==> IsUpperRegister(reg)) &&
      RegisterConstant(r.value.value) && r.value.value.1 == ['T', LowerRegister(reg)]
  {
    if !IsUpperRegister(reg) && !IsLowerRegister(reg) then Err(Raise(AssertionError))
    else
      var taxType := if IsUpperRegister(reg) then Fiscal.CustomTax else Fiscal.Service;
      if value == "////" then Ok(None)
      else
        match ParseDecimal(RemoveChar(value, '.'))
        case None => Err(Raise(InvalidOperation))
        case Some(x) => Ok(Some((taxType, ['T', LowerRegister(reg)], Some(x / 100.0))))
  }

  /** Record i of the tax codes: five characters from i * 5; a record past the end raises IndexError. */
  function TaxRecord(codes: string, i: nat): (r: Result<Option<TaxConstant>>)
    ensures i * 5 >= |codes| ==> r == Err(Raise(IndexError))
    ensures r.Ok? && r.value.Some? ==> RegisterConstant(r.value.value)
  {
    if i * 5 >= |codes| then Err(Raise(IndexError))
    else TaxRecordOf(codes[i * 5], Slice(codes, i * 5 + 1, i * 5 + 5))
  }

  /** Record i when the tax codes reach it: the letter at i * 5 and the next four characters. */
  lemma TaxRecordAt(codes: string, i: nat)
    requires i * 5 < |codes|
    ensures TaxRecord(codes, i) == TaxRecordOf(codes[i * 5], Slice(codes, i * 5 + 1, i * 5 + 5))
  {
  }

  /** The constants of the first n records, in order; the first record that fails decides the error. */
  function TaxRecords(codes: string, n: nat): (r: Result<seq<TaxConstant>>)
  {
    if n == 0 then Ok([])
    else
      match TaxRecords(codes, n - 1)
      case Err(e) => Err(e)
      case Ok(previous) =>
        match TaxRecord(codes, n - 1)
        case Err(e) => Err(e)
        case Ok(None) => Ok(previous)
        case Ok(Some(c)) => Ok(previous + [c])
  }

  /** At most one constant per record, each a register's; unused registers add nothing. */
  lemma {:induction false} TaxRecordsShape(codes: string, n: nat)
    ensures var r := TaxRecords(codes, n);
      r.Ok? ==> |r.value| <= n && forall k :: 0 <= k < |r.value| ==> RegisterConstant(r.value[k])
  {
    hide TaxRecord;
    if n > 0 {
      TaxRecordsShape(codes, n - 1);
    }
  }

  /** An error in a record is the error of every longer prefix: the loop stops at the first failing record. */
  lemma {:induction false} TaxRecordsErrorSticks(codes: string, n: nat, m: nat)
    requires n <= m && TaxRecords(codes, n).Err?
    ensures TaxRecords(codes, m) == TaxRecords(codes, n)
    decreases m - n
  {
    hide TaxRecord;
    if n < m {
      TaxRecordsErrorSticks(codes, n, m - 1);
    }
  }

  /** An upper-case register with four digits of rate is the custom rate T<letter> of digits/100. */
  lemma TaxRecordRead(reg: char, value: string)
    requires IsUpperRegister(reg) && |value| == 4 && AllDigits(value)
    ensures TaxRecordOf(reg, value) == Ok(Some((Fiscal.CustomTax, ['T', LowerRegister(reg)], Some(DigitsValue(value) as real / 100.0))))
  {
    hide ParseDecimal, RemoveChar, DigitsValue;
    assert value != "////" by {
      assert IsDigit(value[0]);
    }
    RateOfDigits(value);
  }

  /** Digits without a point are read as they are: removing '.' changes nothing. */
  lemma RateOfDigits(value: string)
    requires value != [] && AllDigits(value)
    ensures ParseDecimal(RemoveChar(value, '.')) == Some(DigitsValue(value) as real)
  {
    assert '.' !in value;
    hide ParseDecimal, RemoveChar, DigitsValue;
    RemoveAbsentChar(value, '.');
    ParseDecimalDigits(value);
  }

  /** A used register whose rate parses as x is the constant of its letter with rate x / 100. */
  lemma TaxRecordParsed(reg: char, value: string, x: real)
    requires IsUpperRegister(reg) || IsLowerRegister(reg)
    requires value != "////" && ParseDecimal(RemoveChar(value, '.')) == Some(x)
    ensures TaxRecordOf(reg, value) ==
      Ok(Some((if IsUpperRegister(reg) then Fiscal.CustomTax else Fiscal.Service, ['T', LowerRegister(reg)], Some(x / 100.0))))
  {
    hide ParseDecimal, RemoveChar;
  }

  /** A used register whose rate does not parse raises InvalidOperation. */
  lemma TaxRecordUnparsed(reg: char, value: string)
    requires IsUpperRegister(reg) || IsLowerRegister(reg)
    requires value != "////" && ParseDecimal(RemoveChar(value, '.')).None?
    ensures TaxRecordOf(reg, value) == Err(Raise(InvalidOperation))
  {
    hide ParseDecimal, RemoveChar;
  }

  /** A record that reads as a constant appends it. */
  lemma TaxRecordsAppend(codes: string, n: nat, previous: seq<TaxConstant>, c: TaxConstant)
    requires TaxRecords(codes, n) == Ok(previous) && TaxRecord(codes, n) == Ok(Some(c))
    ensures TaxRecords(codes, n + 1) == Ok(previous + [c])
  {
    hide TaxRecord;
  }

  /** An unused register adds nothing. */
  lemma TaxRecordsSkip(codes: string, n: nat, previous: seq<TaxConstant>)
    requires TaxRecords(codes, n) == Ok(previous) && TaxRecord(codes, n) == Ok(None)
    ensures TaxRecords(codes, n + 1) == Ok(previous)
  {
    hide TaxRecord;
  }

  /** A record that fails ends the list with its error, whatever the records after it. */
  lemma TaxRecordsStop(codes: string, n: nat, m: nat, e: Exception)
    requires n < m && TaxRecords(codes, n).Ok? && TaxRecord(codes, n) == Err(e)
    ensures TaxRecords(codes, m) == Err(e)
  {
    hide TaxRecord;
    assert TaxRecords(codes, n + 1) == Err(e);
    TaxRecordsErrorSticks(codes, n + 1, m);
  }

  /** An unused register ('////') adds no constant, whatever its letter's case. */
  lemma UnusedRegisterSkipped(reg: char)
    requires IsUpperRegister(reg) || IsLowerRegister(reg)
    ensures TaxRecordOf(reg, "////") == Ok(None)
  {
  }

  /** get_tax_constants on the replies p: CMD_GET_TAX_CODES, the reply past its first character, the records, the fixed tail. */
  function TaxConstantsFrom(p: seq<Reply>): (r: Step<seq<TaxConstant>>)
    ensures |r.left| <= |p|
    ensures r.result.Ok? ==> |r.result.value| >= 3 && r.result.value[|r.result.value| - 3..] == TaxTail
  {
    var x := SendFrom(p, [CmdGetTaxCodes as char]);
    if x.result.Err? then Step(Err(x.result.error), x.left, x.sent)
    else
      var codes := Slice(x.result.value, 1, |x.result.value|);
      match TaxRecords(codes, TaxRecordCount)
      case Err(e) => Step(Err(e), x.left, x.sent)
      case Ok(constants) => Step(Ok(constants + TaxTail), x.left, x.sent)
  }

  // ---------------------------------------------------------------------
  // Registers

  /** _get_registers' check: the reply must echo ESC and the command, which are cut off. */
  function Registers(value: string): (r: Result<string>)
    ensures r.Ok? <==> |value| >= 2 && value[..2] == [Esc, CmdGetRegistries as char]
    ensures r.Ok? ==> value == value[..2] + r.value
    ensures r.Err? ==> r.error == Raise(AssertionError)
  {
    if Slice(value, 0, 2) != [Esc, CmdGetRegistries as char] then Err(Raise(AssertionError))
    else Ok(Slice(value, 2, |value|))
  }

  /** int(regs[lo:hi]), ValueError when the slice is not a number. */
  function RegisterNumber(regs: string, lo: nat, hi: nat): (r: Result<int>)
    ensures r.Ok? <==> ParseInt(Slice(regs, lo, hi)).Some?
    ensures r.Err? ==> r.error == Raise(ValueError)
  {
    match ParseInt(Slice(regs, lo, hi))
    case None => Err(Raise(ValueError))
    case Some(n) => Ok(n)
  }

  /** CMD_GET_REGISTRIES, checked, and the number in the given slice of the registers. */
  function RegisterFrom(p: seq<Reply>, lo: nat, hi: nat): (r: Step<int>)
    ensures |r.left| <= |p|
  {
    var x := SendFrom(p, [CmdGetRegistries as char]);
    if x.result.Err? then Step(Err(x.result.error), x.left, x.sent)
    else
      match Registers(x.result.value)
      case Err(e) => Step(Err(e), x.left, x.sent)
      case Ok(regs) => Step(RegisterNumber(regs, lo, hi), x.left, x.sent)
  }

  /** get_coo: registers[7:12]. */
  function CooFrom(p: seq<Reply>): Step<int> { RegisterFrom(p, 7, 12) }

  /** get_gnf: registers[13:18]. */
  function GnfFrom(p: seq<Reply>): Step<int> { RegisterFrom(p, 13, 18) }

  /** get_crz: registers[38:42]. */
  function CrzFrom(p: seq<Reply>): Step<int> { RegisterFrom(p, 38, 42) }

  /** _get_coupon_number: CMD_GET_TOTALIZERS (the same code), unchecked, and int(reply[8:14]). */
  function CouponNumberFrom(p: seq<Reply>): (r: Step<int>)
    ensures |r.left| <= |p|
  {
    var x := SendFrom(p, [CmdGetTotalizers as char]);
    if x.result.Err? then Step(Err(x.result.error), x.left, x.sent)
    else Step(RegisterNumber(x.result.value, 8, 14), x.left, x.sent)
  }

  /** A zero-padded number in a register field reads back as itself. */
  lemma RegisterFieldRead(regs: string, lo: nat, w: nat, n: nat)
    requires 1 <= w && n < Pow10(w) && lo + w <= |regs| && regs[lo..lo + w] == FormatZeroPadded(n, w)
    ensures RegisterNumber(regs, lo, lo + w) == Ok(n)
  {
    assert Slice(regs, lo, lo + w) == regs[lo..lo + w];
    ZeroPaddedField(n, w);
  }

  /**
   * The coupon number and the COO come from the same reply: the coupon
   * number is the six digits at 8..14 of the reply, the COO only the last
   * five of them, so the COO is the coupon number modulo 100000.
   */
  lemma CooIsCouponNumberTail(value: string)
    requires |value| >= 14 && value[..2] == [Esc, CmdGetRegistries as char] && AllDigits(value[8..14])
    ensures Registers(value).Ok?
    ensures RegisterNumber(value, 8, 14) == Ok(DigitsValue(value[8..14]))
    ensures RegisterNumber(Registers(value).value, 7, 12) == Ok(DigitsValue(value[8..14]) % 100000)
  {
    var regs := Registers(value).value;
    assert regs == value[2..];
    var six := value[8..14];
    assert Slice(value, 8, 14) == six;
    assert Slice(regs, 7, 12) == six[1..];
    hide Slice, Registers;
    ParseDigits(six);
    ParseDigits(six[1..]);
    LeadingDigitDropped(six);
  }

  /** Dropping the first of six digits takes the number modulo 100000. */
  lemma LeadingDigitDropped(six: string)
    requires |six| == 6 && AllDigits(six)
    ensures DigitsValue(six[1..]) == DigitsValue(six) % 100000
  {
    assert six == six[..1] + six[1..];
    DigitsValueAppend(six[..1], six[1..]);
    DigitsValueBound(six[1..]);
    assert Pow10(5) == 100000;
    hide DigitsValue;
    ShiftedRemainder(DigitsValue(six[..1]), DigitsValue(six[1..]));
  }

  lemma ShiftedRemainder(a: nat, b: nat)
    requires b < 100000
    ensures (a * 100000 + b) % 100000 == b
  {
  }

  /** What one exchange yields: the frame goes out (or ValueError), then one reply is read. */
  function ExchangeFrom(p: seq<Reply>, raw: string): (r: Step<string>)
    ensures |r.left| <= |p|
    ensures r.result.Ok? ==> IsByteString(Frame(raw)) && |r.left| < |p| && r.sent == FrameBytes(raw)
    ensures !IsByteString(Frame(raw)) <==> r == Step(Err(Raise(ValueError)), p, [])
  {
    if !IsByteString(Frame(raw)) then Step(Err(Raise(ValueError)), p, [])
    else
      var reply := ReplyFrom(p, 0, "");
      Step(reply.0, reply.1, FrameBytes(raw))
  }

  /** send_command is one exchange followed by the handling of its reply. */
  lemma SendAfterExchange(p: seq<Reply>, raw: string)
    ensures
      var x := ExchangeFrom(p, raw);
      var e := if x.result.Ok? && IsErrorReply(x.result.value) then HandleError(x.result.value) else None;
      var g := SendFrom(x.left, [CmdGetX as char]);
      var y := SendFrom(g.left, raw);
      SendFrom(p, raw) ==
        if x.result.Err? then x
        else if e.None? then Step(Ok(Slice(x.result.value, 1, |x.result.value|)), x.left, x.sent)
        else if e.value.code != Some(42) then Step(Err(e.value), x.left, x.sent)
        else if g.result.Err? then Step(Err(g.result.error), g.left, x.sent + g.sent)
        else Step(y.result, y.left, x.sent + g.sent + y.sent)
  {
  }

  /** What write sends for a frame of bytes. */
  lemma FrameWritten(raw: string)
    ensures IsByteString(Frame(raw)) ==> Str2Bytes(Frame(raw)).value == FrameBytes(raw)
  {
  }

  // ---------------------------------------------------------------------
  // The driver

  class FS345 {
    const serial: SerialBase
    const consts: Constants<Fiscal.UnitType, string>

    /** SerialBase's framing: ESC before each command, nothing after it, CR ending each reply. */
    predicate Valid()
    {
      serial.prefix == [Esc] && serial.suffix == "" && serial.eol == Cr
    }

    /** FS345(port, consts): consts default to FS345Constants. */
    constructor(port: Port, consts: Option<Constants<Fiscal.UnitType, string>>)
      ensures Valid() && serial.port == port
      ensures this.consts == if consts.Some? then consts.value else FS345Units
    {
      serial := new SerialBase.Default(port);
      this.consts := if consts.Some? then consts.value else FS345Units;
    }

    /** _read_reply: one character at a time up to CR; the empty reads add up over the whole reply. */
    method ReadReply() returns (r: Result<string>)
      modifies serial.port
      ensures (r, serial.port.pending) == ReplyFrom(old(serial.port.pending), 0, "")
      ensures serial.port.written == old(serial.port.written)
    {
      var rep := "";
      var timeouts := 0;
      while true
        invariant timeouts <= RetriesBeforeTimeout + 1
        invariant ReplyFrom(serial.port.pending, timeouts, rep) == ReplyFrom(old(serial.port.pending), 0, "")
        invariant serial.port.written == old(serial.port.written)
        decreases |serial.port.pending|, RetriesBeforeTimeout + 1 - timeouts
      {
        if timeouts > RetriesBeforeTimeout {
          return Err(Raise(DriverError));
        }
        ghost var p := serial.port.pending;
        var c := serial.Read(1);
        if |c| != 1 {
          assert |p| == 0 || p[0] == Silence;
          assert |p| == 0 ==> serial.port.pending == p;
          timeouts := timeouts + 1;
          continue;
        }
        assert c == [p[0].b as char] && serial.port.pending == p[1..];
        if c[0] == Cr {
          return Ok(rep);
        }
        rep := rep + c;
      }
    }

    /** One exchange of send_command: write the frame, then read the reply to it. */
    method Exchange(raw: string) returns (r: Result<string>)
      requires Valid()
      modifies serial.port
      ensures var x := ExchangeFrom(old(serial.port.pending), raw);
        r == x.result && serial.port.pending == x.left && serial.port.written == old(serial.port.written) + x.sent
    {
      assert serial.prefix + raw + serial.suffix == Frame(raw);
      FrameWritten(raw);
      var written := serial.Write(serial.prefix + raw + serial.suffix);
      if written.Err? {
        return Err(written.error);
      }
      r := ReadReply();
    }

    /**
     * send_command(command, extra): write ESC + chr(command) + extra and read
     * the reply; on error 42 send CMD_GET_X and write the frame again.
     */
    method SendCommand(command: byte, extra: string) returns (r: Result<string>)
      requires Valid()
      modifies serial.port
      ensures var x := SendFrom(old(serial.port.pending), [command as char] + extra);
        r == x.result && serial.port.pending == x.left && serial.port.written == old(serial.port.written) + x.sent
      decreases |serial.port.pending|
    {
      var raw := [command as char] + extra;
      assert [CmdGetX as char] + "" == [CmdGetX as char];
      hide *;
      ghost var sent: seq<byte> := [];
      while true
        invariant var y := SendFrom(serial.port.pending, raw);
          SendFrom(old(serial.port.pending), raw) == Step(y.result, y.left, sent + y.sent)
        invariant serial.port.written == old(serial.port.written) + sent
        invariant |serial.port.pending| <= |old(serial.port.pending)|
        decreases |serial.port.pending|
      {
        ghost var p := serial.port.pending;
        ghost var xp := ExchangeFrom(p, raw);
        SendAfterExchange(p, raw);
        var retval := Exchange(raw);
        AppendAssoc(old(serial.port.written), sent, xp.sent);
        if retval.Err? {
          return Err(retval.error);
        }
        var reply := retval.value;
        var e := if IsErrorReply(reply) then HandleError(reply) else None;
        if e.Some? && e.value.code == Some(42) {
          ghost var gx := SendFrom(serial.port.pending, [CmdGetX as char]);
          var x := SendCommand(CmdGetX, "");
          AppendAssoc(old(serial.port.written) + sent, xp.sent, gx.sent);
          AppendAssoc(old(serial.port.written), sent, xp.sent + gx.sent);
          if x.Err? {
            return Err(x.error);
          }
          ghost var y := SendFrom(serial.port.pending, raw);
          AppendAssoc(old(serial.port.written), sent + xp.sent, gx.sent);
          AppendAssoc(sent + xp.sent, gx.sent, y.sent);
          AppendAssoc(sent, xp.sent, gx.sent + y.sent);
          AppendAssoc(xp.sent, gx.sent, y.sent);
          sent := sent + xp.sent + gx.sent;
          continue;
        }
        if e.Some? {
          return Err(e.value);
        }
        return Ok(Slice(reply, 1, |reply|));
      }
    }

    /** _get_status: CMD_STATUS written as it is, then one reply. */
    method GetStatus() returns (r: Result<string>)
      requires Valid()
      modifies serial.port
      ensures var x := StatusFrom(old(serial.port.pending));
        r == x.result && serial.port.pending == x.left && serial.port.written == old(serial.port.written) + x.sent
    {
      assert Str2Bytes(CmdStatus).value == StatusBytes;
      var _ := serial.Write(CmdStatus);
      r := ReadReply();
    }

    /** has_pending_reduce(status): an empty or missing status is fetched afresh; then bit (2, 1). */
    method HasPendingReduce(status: string) returns (r: Result<bool>)
      requires Valid()
      modifies serial.port
      ensures status == "" ==> var x := PendingReduceFrom(old(serial.port.pending));
        r == x.result && serial.port.pending == x.left && serial.port.written == old(serial.port.written) + x.sent
      ensures status != "" ==> r == StatusBit(status, 2, 1) && unchanged(serial.port)
    {
      if status != "" {
        return StatusBit(status, 2, 1);
      }
      var st := GetStatus();
      if st.Err? {
        return Err(st.error);
      }
      r := StatusBit(st.value, 2, 1);
    }

    /** _check_status: a fresh status starting with ':', no pending reduce Z, then the status bits. */
    method CheckStatus() returns (r: Result<string>)
      requires Valid()
      modifies serial.port
      ensures var x := CheckStatusFrom(old(serial.port.pending));
        r == x.result && serial.port.pending == x.left && serial.port.written == old(serial.port.written) + x.sent
    {
      var st := GetStatus();
      if st.Err? {
        return Err(st.error);
      }
      var status := st.value;
      if |status| == 0 {
        return Err(Raise(IndexError));
      }
      if status[0] != ':' {
        return Err(Raise(HardwareFailure));
      }
      ghost var w := serial.port.written;
      var pending := HasPendingReduce("");
      AppendAssoc(old(serial.port.written), StatusBytes, StatusBytes);
      if pending.Err? {
        return Err(pending.error);
      }
      if pending.value {
        return Err(Raise(PendingReduceZ));
      }
      var fault := StatusFault(status);
      if fault.Some? {
        return Err(fault.value);
      }
      return Ok(status);
    }

    /** _verify_coupon_open: a fresh status whose bit (4, 2) is set, else CouponNotOpenError. */
    method VerifyCouponOpen() returns (r: Result<Unit>)
      requires Valid()
      modifies serial.port
      ensures var x := VerifyOpenFrom(old(serial.port.pending));
        r == x.result && serial.port.pending == x.left && serial.port.written == old(serial.port.written) + x.sent
    {
      var st := GetStatus();
      if st.Err? {
        return Err(st.error);
      }
      var open := StatusBit(st.value, 4, 2);
      if open.Err? {
        return Err(open.error);
      }
      if !open.value {
        return Err(Raise(CouponNotOpenError));
      }
      return Ok(Unit);
    }

    /** _check_status then _verify_coupon_open. */
    method Ready() returns (r: Result<Unit>)
      requires Valid()
      modifies serial.port
      ensures var x := ReadyFrom(old(serial.port.pending));
        r == x.result && serial.port.pending == x.left && serial.port.written == old(serial.port.written) + x.sent
    {
      ghost var p := serial.port.pending;
      var c := CheckStatus();
      if c.Err? {
        return Err(c.error);
      }
      ghost var q := serial.port.pending;
      r := VerifyCouponOpen();
      AppendAssoc(old(serial.port.written), CheckStatusFrom(p).sent, VerifyOpenFrom(q).sent);
    }

    /** coupon_add_item: the unit text, the fixed-width payload, CMD_ADD_ITEM_3L13D53U, then int(value[1:4]). */
    method CouponAddItem(item: ItemArgs) returns (r: Result<int>)
      requires Valid()
      modifies serial.port
      ensures var x := AddItemFrom(old(serial.port.pending), consts, item);
        r == x.result && serial.port.pending == x.left && serial.port.written == old(serial.port.written) + x.sent
    {
      var unit := UnitText(consts, item.unit, item.unitDesc);
      if unit.Err? {
        return Err(unit.error);
      }
      var value := SendCommand(CmdAddItem, ItemData(item, unit.value));
      if value.Err? {
        return Err(value.error);
      }
      r := ItemId(value.value);
    }

    /** coupon_totalize: the status checks, the mode and amount, CMD_TOTALIZE_COUPON, then the total in hundredths. */
    method CouponTotalize(discount: real, surcharge: real, taxcode: Fiscal.TaxType) returns (r: Result<real>)
      requires Valid()
      modifies serial.port
      ensures var x := TotalizeFrom(old(serial.port.pending), discount, surcharge, taxcode);
        r == x.result && serial.port.pending == x.left && serial.port.written == old(serial.port.written) + x.sent
    {
      ghost var p := serial.port.pending;
      var ready := Ready();
      if ready.Err? {
        return Err(ready.error);
      }
      var mode := TotalizeMode(discount, surcharge, taxcode);
      if mode.Err? {
        return Err(mode.error);
      }
      ghost var q := serial.port.pending;
      var rv := SendCommand(CmdTotalizeCoupon, TotalizeData(mode.value.0, mode.value.1));
      AppendAssoc(old(serial.port.written), ReadyFrom(p).sent,
        SendFrom(q, [CmdTotalizeCoupon as char] + TotalizeData(mode.value.0, mode.value.1)).sent);
      if rv.Err? {
        return Err(rv.error);
      }
      r := Hundredths(rv.value);
    }

    /** coupon_add_payment: the status checks, then _add_payment with CMD_DESCRIBE_PAYMENT_FORM. */
    method CouponAddPayment(form: char, value: real, description: string) returns (r: Result<real>)
      requires Valid()
      modifies serial.port
      ensures var x := AddPaymentFrom(old(serial.port.pending), form, value, description);
        r == x.result && serial.port.pending == x.left && serial.port.written == old(serial.port.written) + x.sent
    {
      ghost var p := serial.port.pending;
      var ready := Ready();
      if ready.Err? {
        return Err(ready.error);
      }
      ghost var q := serial.port.pending;
      var rv := SendCommand(CmdDescribePaymentForm, PaymentData(form, value, description));
      AppendAssoc(old(serial.port.written), ReadyFrom(p).sent,
        SendFrom(q, [CmdDescribePaymentForm as char] + PaymentData(form, value, description)).sent);
      if rv.Err? {
        return Err(rv.error);
      }
      r := PaymentAmount(rv.value);
    }

    /**
     * One pass of get_tax_constants' loop: the register letter at i * 5 and
     * its tax type, then its rate unless it reads '////'.
     */
    static method ReadTaxRecord(codes: string, i: nat) returns (r: Result<Option<TaxConstant>>)
      ensures r == TaxRecord(codes, i)
    {
      hide *;
      if i * 5 >= |codes| {
        return Err(Raise(IndexError));
      }
      TaxRecordAt(codes, i);
      var reg := codes[i * 5];
      var taxType;
      if IsUpperRegister(reg) {
        taxType := Fiscal.CustomTax;
      } else if IsLowerRegister(reg) {
        taxType := Fiscal.Service;
      } else {
        return Err(Raise(AssertionError));
      }
      var value := Slice(codes, i * 5 + 1, i * 5 + 5);
      if value == "////" {
        UnusedRegisterSkipped(reg);
        return Ok(None);
      }
      var rate := ParseDecimal(RemoveChar(value, '.'));
      if rate.None? {
        TaxRecordUnparsed(reg, value);
        return Err(Raise(InvalidOperation));
      }
      TaxRecordParsed(reg, value, rate.value);
      return Ok(Some((taxType, ['T', LowerRegister(reg)], Some(rate.value / 100.0))));
    }

    /** One pass of get_tax_constants' loop on the list so far: record i is read and its constant, if any, appended. */
    static method AppendTaxRecord(codes: string, i: nat, constants: seq<TaxConstant>) returns (r: Result<seq<TaxConstant>>)
      requires TaxRecords(codes, i) == Ok(constants)
      ensures r == TaxRecords(codes, i + 1)
    {
      var record := ReadTaxRecord(codes, i);
      match record
      case Err(e) =>
        TaxRecordsStop(codes, i, i + 1, e);
        return Err(e);
      case Ok(None) =>
        TaxRecordsSkip(codes, i, constants);
        return Ok(constants);
      case Ok(Some(c)) =>
        TaxRecordsAppend(codes, i, constants, c);
        return Ok(constants + [c]);
    }

    /** get_tax_constants' loop over the fourteen records of the reply: the first failing record stops it. */
    static method ReadTaxRecords(codes: string, count: nat) returns (r: Result<seq<TaxConstant>>)
      ensures r == TaxRecords(codes, count)
    {
      assert TaxRecords(codes, 0) == Ok([]);
      var constants: seq<TaxConstant> := [];
      for i := 0 to count
        invariant TaxRecords(codes, i) == Ok(constants)
      {
        var next := AppendTaxRecord(codes, i, constants);
        if next.Err? {
          TaxRecordsErrorSticks(codes, i + 1, count);
          return next;
        }
        constants := next.value;
      }
      return Ok(constants);
    }

    /** get_tax_constants: CMD_GET_TAX_CODES, then fourteen five-character records, then the fixed tail. */
    method GetTaxConstants() returns (r: Result<seq<TaxConstant>>)
      requires Valid()
      modifies serial.port
      ensures var x := TaxConstantsFrom(old(serial.port.pending));
        r == x.result && serial.port.pending == x.left && serial.port.written == old(serial.port.written) + x.sent
    {
      var reply := SendCommand(CmdGetTaxCodes, "");
      assert [CmdGetTaxCodes as char] + "" == [CmdGetTaxCodes as char];
      if reply.Err? {
        return Err(reply.error);
      }
      var constants := ReadTaxRecords(Slice(reply.value, 1, |reply.value|), TaxRecordCount);
      if constants.Err? {
        return Err(constants.error);
      }
      return Ok(constants.value + TaxTail);
    }

    /** _get_registers: CMD_GET_REGISTRIES, whose reply must echo ESC and the command. */
    method GetRegisters() returns (r: Result<string>)
      requires Valid()
      modifies serial.port
      ensures var x := SendFrom(old(serial.port.pending), [CmdGetRegistries as char]);
        r == (if x.result.Err? then Err(x.result.error) else Registers(x.result.value)) &&
        serial.port.pending == x.left && serial.port.written == old(serial.port.written) + x.sent
    {
      var value := SendCommand(CmdGetRegistries, "");
      assert [CmdGetRegistries as char] + "" == [CmdGetRegistries as char];
      if value.Err? {
        return Err(value.error);
      }
      r := Registers(value.value);
    }

    /** The number in registers[lo:hi], as get_coo, get_gnf and get_crz read it. */
    method GetRegister(lo: nat, hi: nat) returns (r: Result<int>)
      requires Valid()
      modifies serial.port
      ensures var x := RegisterFrom(old(serial.port.pending), lo, hi);
        r == x.result && serial.port.pending == x.left && serial.port.written == old(serial.port.written) + x.sent
    {
      var regs := GetRegisters();
      if regs.Err? {
        return Err(regs.error);
      }
      r := RegisterNumber(regs.value, lo, hi);
    }

    /** get_coo: registers[7:12]. */
    method GetCoo() returns (r: Result<int>)
      requires Valid()
      modifies serial.port
      ensures var x := CooFrom(old(serial.port.pending));
        r == x.result && serial.port.pending == x.left && serial.port.written == old(serial.port.written) + x.sent
    {
      r := GetRegister(7, 12);
    }

    /** get_gnf: registers[13:18]. */
    method GetGnf() returns (r: Result<int>)
      requires Valid()
      modifies serial.port
      ensures var x := GnfFrom(old(serial.port.pending));
        r == x.result && serial.port.pending == x.left && serial.port.written == old(serial.port.written) + x.sent
    {
      r := GetRegister(13, 18);
    }

    /** get_crz: registers[38:42]. */
    method GetCrz() returns (r: Result<int>)
      requires Valid()
      modifies serial.port
      ensures var x := CrzFrom(old(serial.port.pending));
        r == x.result && serial.port.pending == x.left && serial.port.written == old(serial.port.written) + x.sent
    {
      r := GetRegister(38, 42);
    }

    /** _get_coupon_number: int(_get_totalizers()[8:14]), the reply not checked. */
    method GetCouponNumber() returns (r: Result<int>)
      requires Valid()
      modifies serial.port
      ensures var x := CouponNumberFrom(old(serial.port.pending));
        r == x.result && serial.port.pending == x.left && serial.port.written == old(serial.port.written) + x.sent
    {
      var totalizers := SendCommand(CmdGetTotalizers, "");
      assert [CmdGetTotalizers as char] + "" == [CmdGetTotalizers as char];
      if totalizers.Err? {
        return Err(totalizers.error);
      }
      r := RegisterNumber(totalizers.value, 8, 14);
    }
  }
}
