/*
 * The serial line every driver talks through: a port that hands out the
 * device's reply bytes and logs what the host writes, and the SerialBase
 * framing on top of it (write, read, writeline, readline with its timeout).
 */
module Serial {
  import opened Common
  import opened Utils

  /** One step of what the device sends: a byte, or a read that times out empty. */
  datatype Reply = Byte(b: byte) | Silence

  /** The characters the device sends, silences dropped. */
  function Heard(p: seq<Reply>): (s: string)
    ensures |s| <= |p|
  {
    if |p| == 0 then []
    else (match p[0] case Byte(b) => [b as char] case Silence => []) + Heard(p[1..])
  }

  lemma {:induction false} HeardAppend(p: seq<Reply>, q: seq<Reply>)
    ensures Heard(p + q) == Heard(p) + Heard(q)
  {
    if |p| > 0 {
      assert (p + q)[1..] == p[1..] + q;
      HeardAppend(p[1..], q);
    } else {
      assert p + q == q;
    }
  }

  lemma {:induction false} HeardOfBytes(p: seq<Reply>, data: seq<byte>)
    requires |data| <= |p| && forall i :: 0 <= i < |data| ==> p[i] == Byte(data[i])
    ensures Heard(p[..|data|]) == Bytes2Str(data)
  {
    if |data| > 0 {
      HeardOfBytes(p[1..], data[1..]);
      assert p[..|data|][1..] == p[1..][..|data[1..]|];
      assert Bytes2Str(data) == [data[0] as char] + Bytes2Str(data[1..]);
    }
  }

  /** The replies of a device that sends the characters of s without a pause. */
  function Replies(s: string): (p: seq<Reply>)
    requires IsByteString(s)
    ensures |p| == |s|
  {
    seq(|s|, i requires 0 <= i < |s| => Byte(s[i] as int as byte))
  }

  /** port.read(n): the run of bytes at the head of the script, at most n of them. */
  function ReadBytes(p: seq<Reply>, n: nat): (data: seq<byte>)
    ensures |data| <= n && |data| <= |p|
    ensures forall i :: 0 <= i < |data| ==> p[i] == Byte(data[i])
    ensures |data| < n && |data| < |p| ==> p[|data|] == Silence
  {
    if n == 0 || |p| == 0 || p[0].Silence? then []
    else [p[0].b] + ReadBytes(p[1..], n - 1)
  }

  /** The script left after port.read(n): a timeout is used up by the read that meets it. */
  function AfterRead(p: seq<Reply>, n: nat): seq<Reply>
  {
    if n > 0 && |p| > 0 && p[0].Silence? then p[1..] else p[|ReadBytes(p, n)|..]
  }

  /** A read loses nothing: what was heard is what the read returned, then what is left. */
  lemma ReadKeepsOrder(p: seq<Reply>, n: nat)
    ensures Heard(p) == Bytes2Str(ReadBytes(p, n)) + Heard(AfterRead(p, n))
  {
    var data := ReadBytes(p, n);
    if n > 0 && |p| > 0 && p[0].Silence? {
      assert data == [];
      assert p == [p[0]] + p[1..];
      HeardAppend([p[0]], p[1..]);
    } else {
      assert p == p[..|data|] + p[|data|..];
      HeardAppend(p[..|data|], p[|data|..]);
      HeardOfBytes(p, data);
    }
  }

  /**
   * A serial port driven by a script of replies, with a log of every byte the
   * host wrote; end of script reads as a timeout.
   */
  class Port {
    var pending: seq<Reply>
    var written: seq<byte>

    constructor(script: seq<Reply>)
      ensures pending == script && written == []
    {
      pending := script;
      written := [];
    }

    method Write(data: seq<byte>)
      modifies this
      ensures written == old(written) + data && pending == old(pending)
    {
      written := written + data;
    }

    method Read(n: nat) returns (data: seq<byte>)
      modifies this
      ensures data == ReadBytes(old(pending), n)
      ensures pending == AfterRead(old(pending), n) && written == old(written)
    {
      data := ReadBytes(pending, n);
      pending := AfterRead(pending, n);
    }
  }

  /** What a driver command does on the port: its result, the script of replies left, and the bytes sent. */
  datatype Step<T> = Step(result: Result<T>, left: seq<Reply>, sent: seq<byte>)

  // ---------------------------------------------------------------------
  // Sequences of write() calls

  /**
   * One write() a driver method makes: the text it passes, or an exception
   * raised while that text is being built (chr out of range, str.encode).
   */
  datatype Call = Sends(data: string) | Raises(error: Exception)

  /** A call that goes through: a text of byte characters. */
  predicate Sendable(c: Call) { c.Sends? && IsByteString(c.data) }

  /**
   * Making the calls in order: the first one that raises ends the method
   * with its exception, and the bytes of the calls before it stay written.
   */
  function Emit(calls: seq<Call>): (r: (Result<Unit>, seq<byte>))
  {
    if calls == [] then (Ok(Unit), [])
    else
      match calls[0]
      case Raises(e) => (Err(e), [])
      case Sends(data) =>
        if !IsByteString(data) then (Err(Raise(ValueError)), [])
        else
          var rest := Emit(calls[1..]);
          (rest.0, Str2Bytes(data).value + rest.1)
  }

  /** Two runs of calls one after the other: the second runs only when the first went through. */
  lemma {:induction false} EmitAppend(a: seq<Call>, b: seq<Call>)
    ensures Emit(a + b) == if Emit(a).0.Err? then Emit(a) else (Emit(b).0, Emit(a).1 + Emit(b).1)
  {
    if a == [] {
      assert a + b == b;
      assert Emit(a).1 + Emit(b).1 == Emit(b).1;
    } else {
      assert (a + b)[0] == a[0] && (a + b)[1..] == a[1..] + b;
      EmitAppend(a[1..], b);
      if Sendable(a[0]) && Emit(a[1..]).0.Ok? {
        AppendAssoc(Str2Bytes(a[0].data).value, Emit(a[1..]).1, Emit(b).1);
      }
    }
  }

  /** A single write() call. */
  lemma EmitOne(data: string)
    ensures Emit([Sends(data)]) ==
      if IsByteString(data) then (Ok(Unit), Str2Bytes(data).value) else (Err(Raise(ValueError)), [])
  {
    assert [Sends(data)][1..] == [];
    if IsByteString(data) {
      assert Str2Bytes(data).value + [] == Str2Bytes(data).value;
    }
  }

  /** A call that raises: nothing is written. */
  lemma EmitRaises(e: Exception)
    ensures Emit([Raises(e)]) == (Err(e), [])
  {
  }

  /** A write() of a text whose characters are the given bytes. */
  lemma EmitBytes(data: string, bytes: seq<byte>)
    requires |data| == |bytes| && forall i :: 0 <= i < |data| ==> data[i] as int == bytes[i]
    ensures Emit([Sends(data)]) == (Ok(Unit), bytes)
  {
    EmitOne(data);
    assert Str2Bytes(data).value == bytes;
  }

  /** A method's result and the bytes it left on the port are those of making the calls in order. */
  predicate Did(r: Result<Unit>, before: seq<byte>, after: seq<byte>, calls: seq<Call>)
  {
    r == Emit(calls).0 && after == before + Emit(calls).1
  }

  /** More than this many empty reads in a row end readline with a timeout. */
  const RETRIES := 10

  /**
   * readline(), from a script p, after a consecutive empty reads and with out
   * already collected: the line and the script left, or the timeout.
   */
  function ReadLineFrom(p: seq<Reply>, a: nat, out: string, eol: char): (r: (Result<string>, seq<Reply>))
    requires a <= RETRIES + 1
    ensures |r.1| <= |p|
    decreases |p|, RETRIES + 1 - a
  {
    if a > RETRIES then (Err(Raise(DriverError)), p)
    else if |p| == 0 then ReadLineFrom(p, a + 1, out, eol)
    else match p[0]
      case Silence => ReadLineFrom(p[1..], a + 1, out, eol)
      case Byte(b) =>
        if b as char == eol then (Ok(out), p[1..])
        else ReadLineFrom(p[1..], 0, out + [b as char], eol)
  }

  /**
   * A line read is what was heard up to the first delimiter: the delimiter
   * is consumed and left out, and the rest of the script is untouched.
   */
  lemma {:induction false} ReadLineSplits(p: seq<Reply>, a: nat, out: string, eol: char)
    requires a <= RETRIES + 1
    ensures ReadLineFrom(p, a, out, eol).0.Ok? ==>
      var line, rest := ReadLineFrom(p, a, out, eol).0.value, ReadLineFrom(p, a, out, eol).1;
      |out| <= |line| && line[..|out|] == out && eol !in line[|out|..] &&
      Heard(p) == line[|out|..] + [eol] + Heard(rest)
    decreases |p|, RETRIES + 1 - a
  {
    hide Heard;
    if a > RETRIES {
    } else if |p| == 0 {
      ReadLineSplits(p, a + 1, out, eol);
    } else if p[0].Silence? {
      HeardCons(p);
      ReadLineSplits(p[1..], a + 1, out, eol);
    } else if p[0].b as char == eol {
      HeardCons(p);
    } else {
      var c := p[0].b as char;
      HeardCons(p);
      ReadLineSplits(p[1..], 0, out + [c], eol);
      var r := ReadLineFrom(p[1..], 0, out + [c], eol);
      assert ReadLineFrom(p, a, out, eol) == r;
      if r.0.Ok? {
        LinePrefixStep(r.0.value, out, c, eol, Heard(r.1));
      }
    }
  }

  /** The first reply of a script is heard first. */
  lemma HeardCons(p: seq<Reply>)
    requires |p| > 0
    ensures Heard(p) == (if p[0].Byte? then [p[0].b as char] else []) + Heard(p[1..])
  {
  }

  /** A line that extends out + [c] extends out, with c in front of the characters after out. */
  lemma LinePrefixStep(line: string, out: string, c: char, eol: char, tail: string)
    requires |out| + 1 <= |line| && line[..|out| + 1] == out + [c] && eol !in line[|out| + 1..] && c != eol
    ensures |out| <= |line| && line[..|out|] == out && eol !in line[|out|..]
    ensures [c] + (line[|out| + 1..] + [eol] + tail) == line[|out|..] + [eol] + tail
  {
    assert line[..|out|] == line[..|out| + 1][..|out|];
    assert line[|out|..] == [c] + line[|out| + 1..];
  }

  /** A script that sends a line and then the delimiter: readline returns the line and leaves the rest. */
  lemma {:induction false} ReadLineOfLine(s: string, rest: seq<Reply>, a: nat, out: string, eol: char)
    requires a <= RETRIES && IsByteString(s) && eol !in s && eol as int < 256
    ensures ReadLineFrom(Replies(s) + [Byte(eol as int)] + rest, a, out, eol) == (Ok(out + s), rest)
    decreases |s|
  {
    var p := Replies(s) + [Byte(eol as int)] + rest;
    if s == [] {
      assert p == [Byte(eol as int)] + rest;
      assert p[0].b as char == eol && p[1..] == rest && out + s == out;
    } else {
      assert p[0] == Byte(s[0] as int);
      assert p[1..] == Replies(s[1..]) + [Byte(eol as int)] + rest;
      ReadLineOfLine(s[1..], rest, 0, out + [s[0]], eol);
      assert out + [s[0]] + s[1..] == out + s;
    }
  }

  /** A script in which the delimiter never arrives always ends in the timeout. */
  lemma {:induction false} NoDelimiterTimesOut(p: seq<Reply>, a: nat, out: string, eol: char)
    requires a <= RETRIES + 1
    requires eol !in Heard(p)
    ensures ReadLineFrom(p, a, out, eol).0 == Err(Raise(DriverError))
    decreases |p|, RETRIES + 1 - a
  {
    if a > RETRIES {
    } else if |p| == 0 {
      NoDelimiterTimesOut(p, a + 1, out, eol);
    } else {
      assert Heard(p) == Heard([p[0]]) + Heard(p[1..]) by {
        HeardAppend([p[0]], p[1..]);
        assert p == [p[0]] + p[1..];
      }
      match p[0]
      case Silence =>
        NoDelimiterTimesOut(p[1..], a + 1, out, eol);
      case Byte(b) =>
        NoDelimiterTimesOut(p[1..], 0, out + [b as char], eol);
    }
  }

  /** k empty reads in a row only advance the retry counter while it stays within the limit. */
  lemma {:induction false} SilencesCount(k: nat, p: seq<Reply>, a: nat, out: string, eol: char)
    requires a + k <= RETRIES + 1
    ensures ReadLineFrom(Fill(Silence, k) + p, a, out, eol) == ReadLineFrom(p, a + k, out, eol)
    decreases k
  {
    if k > 0 {
      var q := Fill(Silence, k) + p;
      assert q[0] == Silence && q[1..] == Fill(Silence, k - 1) + p by {
        FillCons(Silence, k);
      }
      assert |q| > 0 && a <= RETRIES;
      assert ReadLineFrom(q, a, out, eol) == ReadLineFrom(q[1..], a + 1, out, eol);
      SilencesCount(k - 1, p, a + 1, out, eol);
    } else {
      assert Fill(Silence, k) + p == p;
    }
  }

  /** Eleven empty reads in a row raise DriverError and use up exactly those eleven reads. */
  lemma ElevenSilencesTimeOut(p: seq<Reply>, out: string, eol: char)
    ensures ReadLineFrom(Fill(Silence, RETRIES + 1) + p, 0, out, eol) == (Err(Raise(DriverError)), p)
  {
    SilencesCount(RETRIES + 1, p, 0, out, eol);
  }

  /** Up to ten empty reads before a byte are forgotten once the byte arrives. */
  lemma TenSilencesTolerated(k: nat, b: byte, p: seq<Reply>, out: string, eol: char)
    requires k <= RETRIES
    ensures ReadLineFrom(Fill(Silence, k) + ([Byte(b)] + p), 0, out, eol) ==
            ReadLineFrom([Byte(b)] + p, 0, out, eol)
  {
    SilencesCount(k, [Byte(b)] + p, 0, out, eol);
  }

  /**
   * SerialBase: the framing a driver puts around its commands (CMD_PREFIX,
   * CMD_SUFFIX) and the character that ends a reply line (EOL_DELIMIT).
   */
  class SerialBase {
    const prefix: string
    const suffix: string
    const eol: char
    var port: Port

    /** The defaults: ESC before each command, nothing after it, and CR ending a reply. */
    constructor Default(port: Port)
      ensures this.port == port
      ensures prefix == "\U{1B}" && suffix == "" && eol == '\r'
    {
      this.port := port;
      prefix, suffix, eol := "\U{1B}", "", '\r';
    }

    /** A driver that overrides the framing. */
    constructor(port: Port, prefix: string, suffix: string, eol: char)
      ensures this.port == port && this.prefix == prefix && this.suffix == suffix && this.eol == eol
    {
      this.port := port;
      this.prefix, this.suffix, this.eol := prefix, suffix, eol;
    }

    /** write(data): one byte per character; a character above 255 raises ValueError before anything is sent. */
    method Write(data: string) returns (r: Result<Unit>)
      modifies port
      ensures r.Ok? <==> IsByteString(data)
      ensures r.Ok? ==> r == Ok(Unit)
      ensures r.Err? ==> r.error == Raise(ValueError) && port.written == old(port.written)
      ensures r.Ok? ==> port.written == old(port.written) + Str2Bytes(data).value
      ensures port.pending == old(port.pending)
    {
      var bytes := Str2Bytes(data);
      if bytes.Err? {
        return Err(bytes.error);
      }
      port.Write(bytes.value);
      return Ok(Unit);
    }

    /** read(n): the bytes the port returns, one character each. */
    method Read(n: nat) returns (s: string)
      modifies port
      ensures s == Bytes2Str(ReadBytes(old(port.pending), n))
      ensures port.pending == AfterRead(old(port.pending), n) && port.written == old(port.written)
    {
      var data := port.Read(n);
      s := Bytes2Str(data);
    }

    /** readline(): characters up to EOL_DELIMIT, giving up after more than RETRIES empty reads in a row. */
    method ReadLine() returns (r: Result<string>)
      modifies port
      ensures (r, port.pending) == ReadLineFrom(old(port.pending), 0, "", eol)
      ensures port.written == old(port.written)
    {
      var out := "";
      var a := 0;
      while true
        invariant a <= RETRIES + 1
        invariant ReadLineFrom(port.pending, a, out, eol) == ReadLineFrom(old(port.pending), 0, "", eol)
        invariant port.written == old(port.written)
        decreases |port.pending|, RETRIES + 1 - a
      {
        if a > RETRIES {
          return Err(Raise(DriverError));
        }
        ghost var p := port.pending;
        var c := Read(1);
        if |c| == 0 {
          assert |p| == 0 || p[0] == Silence;
          assert |p| == 0 ==> port.pending == p;
          a := a + 1;
          continue;
        }
        assert c == [p[0].b as char] && port.pending == p[1..];
        a := 0;
        if c == [eol] {
          return Ok(out);
        }
        out := out + c;
      }
    }

    /** writeline(data): send CMD_PREFIX + data + CMD_SUFFIX, then read the reply line. */
    method WriteLine(data: string) returns (r: Result<string>)
      modifies port
      ensures !IsByteString(prefix + data + suffix) ==>
        r == Err(Raise(ValueError)) && port.written == old(port.written) && port.pending == old(port.pending)
      ensures IsByteString(prefix + data + suffix) ==>
        port.written == old(port.written) + Str2Bytes(prefix + data + suffix).value &&
        (r, port.pending) == ReadLineFrom(old(port.pending), 0, "", eol)
    {
      var w := Write(prefix + data + suffix);
      if w.Err? {
        return Err(w.error);
      }
      r := ReadLine();
    }
  }
}
