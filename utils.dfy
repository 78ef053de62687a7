/*
 * stoqdrivers/utils.py: the byte/str conversions used at the serial boundary
 * and the raster encoder that turns a boolean bitmap into printer graphics
 * strips (bits2byte, matrix2graphics).
 */
module Utils {
  import opened Common

  // ---------------------------------------------------------------------
  // str2bytes / bytes2str

  /** A str every character of which fits in one byte. */
  predicate IsByteString(s: string) { forall i :: 0 <= i < |s| ==> s[i] as int < 256 }

  /** str2bytes: one byte per character (ord); bytes() refuses a code point above 255. */
  function Str2Bytes(text: string): (r: Result<seq<byte>>)
    ensures r.Ok? <==> IsByteString(text)
    ensures r.Ok? ==> |r.value| == |text| && forall i :: 0 <= i < |text| ==> r.value[i] == text[i] as int
    ensures r.Err? ==> r.error == Raise(ValueError)
  {
    if IsByteString(text) then Ok(seq(|text|, i requires 0 <= i < |text| => text[i] as int as byte))
    else Err(Raise(ValueError))
  }

  /** bytes2str: one character per byte (chr). */
  function Bytes2Str(data: seq<byte>): (r: string)
    ensures |r| == |data| && IsByteString(r)
    ensures forall i :: 0 <= i < |data| ==> r[i] as int == data[i]
  {
    seq(|data|, i requires 0 <= i < |data| => data[i] as char)
  }

  /** str2bytes of a text whose characters are the given bytes. */
  lemma TextBytes(text: string, bytes: seq<byte>)
    requires |text| == |bytes| && forall i :: 0 <= i < |text| ==> text[i] as int == bytes[i]
    ensures Str2Bytes(text) == Ok(bytes)
  {
    assert Str2Bytes(text).value == bytes;
  }

  lemma ByteStringAppend(a: string, b: string)
    ensures IsByteString(a + b) <==> IsByteString(a) && IsByteString(b)
  {
    if IsByteString(a + b) {
      assert forall i :: 0 <= i < |a| ==> a[i] == (a + b)[i];
      assert forall i :: 0 <= i < |b| ==> b[i] == (a + b)[|a| + i];
    }
  }

  lemma Bytes2StrRoundTrip(data: seq<byte>)
    ensures Str2Bytes(Bytes2Str(data)) == Ok(data)
  {
    assert Str2Bytes(Bytes2Str(data)).value == data;
  }

  lemma Str2BytesRoundTrip(text: string)
    requires IsByteString(text)
    ensures Str2Bytes(text).Ok? && Bytes2Str(Str2Bytes(text).value) == text
  {
  }

  lemma Bytes2StrConcat(a: seq<byte>, b: seq<byte>)
    ensures Bytes2Str(a + b) == Bytes2Str(a) + Bytes2Str(b)
  {
  }

  // ---------------------------------------------------------------------
  // bits2byte

  function Pow2(n: nat): (p: nat)
    ensures p >= 1
  {
    if n == 0 then 1 else 2 * Pow2(n - 1)
  }

  /**
   * bits2byte: the bits read most significant first. Written in Horner form:
   * the last bit is the units bit, every earlier bit doubles.
   */
  function Bits2Byte(bits: seq<bool>): nat
  {
    if bits == [] then 0
    else 2 * Bits2Byte(bits[..|bits| - 1]) + (if bits[|bits| - 1] then 1 else 0)
  }

  /** n bits encode a number below 2 ** n. */
  lemma {:induction false} Bits2ByteBound(bits: seq<bool>)
    ensures Bits2Byte(bits) < Pow2(|bits|)
    decreases |bits|
  {
    if bits != [] {
      Bits2ByteBound(bits[..|bits| - 1]);
    }
  }

  /** The sum the source writes: bit i counted from the end weighs 2 ** i. */
  function WeightedSum(bits: seq<bool>): nat
  {
    if bits == [] then 0
    else (if bits[0] then Pow2(|bits| - 1) else 0) + WeightedSum(bits[1..])
  }

  /** The Horner form is the sum of 2 ** i over the set bits counted from the end. */
  lemma {:induction false} Bits2ByteIsWeightedSum(bits: seq<bool>)
    ensures Bits2Byte(bits) == WeightedSum(bits)
    decreases |bits|
  {
    if |bits| > 1 {
      var init := bits[..|bits| - 1];
      Bits2ByteIsWeightedSum(init);
      Bits2ByteIsWeightedSum(bits[1..]);
      assert bits[1..][..|bits| - 2] == init[1..];
      Bits2ByteIsWeightedSum(init[1..]);
      assert WeightedSum(init) == (if bits[0] then Pow2(|bits| - 2) else 0) + WeightedSum(init[1..]);
    }
  }

  /** Eight bits or fewer always fit in a byte. */
  lemma Bits2ByteFits(bits: seq<bool>)
    requires |bits| <= 8
    ensures Bits2Byte(bits) < 256
  {
    Bits2ByteBound(bits);
    Pow2Monotone(|bits|, 8);
  }

  lemma {:induction false} Pow2Monotone(a: nat, b: nat)
    requires a <= b
    ensures Pow2(a) <= Pow2(b)
    decreases b
  {
    if a < b { Pow2Monotone(a, b - 1); }
  }

  lemma {:induction false} Bits2ByteAllFalse(n: nat)
    ensures Bits2Byte(Fill(false, n)) == 0
  {
    if n > 0 {
      assert Fill(false, n)[..n - 1] == Fill(false, n - 1);
      Bits2ByteAllFalse(n - 1);
    }
  }

  // ---------------------------------------------------------------------
  // matrix2graphics

  const GRAPHICS_8BITS := 8
  const GRAPHICS_24BITS := 24

  /** One yielded strip: the packed bytes as a str and the reported column count. */
  datatype RasterLine = RasterLine(data: string, columns: int)

  /** int(api / multiplier): the float quotient truncated toward zero. */
  function SubLen(api: int, multiplier: int): (n: int)
    requires multiplier != 0
    ensures multiplier > 0 && api >= 0 ==> 0 <= n && n * multiplier <= api
  {
    if multiplier > 0 then api / multiplier else -(api / -multiplier)
  }

  /** Rows of at least the first row's width: every row the encoder indexes has column j. */
  predicate WideRows(matrix: seq<seq<bool>>)
  {
    forall r :: 0 <= r < |matrix| ==> |matrix[r]| >= |matrix[0]|
  }

  predicate RowsWide(sub: seq<seq<bool>>, w: nat)
  {
    forall r :: 0 <= r < |sub| ==> |sub[r]| >= w
  }

  /**
   * The rows i .. i + n - 1 that exist are at least as wide as the first
   * row: the column loop over that strip never indexes past a row's end.
   */
  predicate StripWide(matrix: seq<seq<bool>>, i: nat, n: nat)
    requires |matrix| > 0
  {
    forall r :: i <= r < i + n && r < |matrix| ==> |matrix[r]| >= |matrix[0]|
  }

  /** A bitmap, or a strip of one, with no bit set. */
  predicate Blank(matrix: seq<seq<bool>>)
  {
    forall r, c :: 0 <= r < |matrix| && 0 <= c < |matrix[r]| ==> !matrix[r][c]
  }

  /** matrix[i:i + n], extended with all-False rows of width w up to n rows. */
  function StripRows(matrix: seq<seq<bool>>, i: nat, n: nat, w: nat): (sub: seq<seq<bool>>)
    ensures |sub| == n
  {
    seq(n, r requires 0 <= r < n => if i + r < |matrix| then matrix[i + r] else Fill(false, w))
  }

  lemma StripRowsWide(matrix: seq<seq<bool>>, i: nat, n: nat, w: nat)
    requires forall r :: i <= r < i + n && r < |matrix| ==> |matrix[r]| >= w
    ensures RowsWide(StripRows(matrix, i, n, w), w)
  {
    var sub := StripRows(matrix, i, n, w);
    forall r | 0 <= r < n
      ensures |sub[r]| >= w
    {
      if i + r >= |matrix| {
        assert sub[r] == Fill(false, w);
      }
    }
  }

  /** Python's matrix[i:i + n] extended with all-False rows of width w is the strip. */
  lemma SlicedRows(matrix: seq<seq<bool>>, i: nat, n: nat, w: nat)
    ensures var s := Slice(matrix, i, i + n);
      (if |s| < n then s + Fill(Fill(false, w), n - |s|) else s) == StripRows(matrix, i, n, w)
  {
    var s := Slice(matrix, i, i + n);
    var padded := if |s| < n then s + Fill(Fill(false, w), n - |s|) else s;
    FillIndex(Fill(false, w), n - |s|);
    forall r | 0 <= r < n
      ensures padded[r] == StripRows(matrix, i, n, w)[r]
    {
      if r < |s| {
        assert s[r] == matrix[i + r];
      }
    }
  }

  /** The bits of column j from row k down: each row's bit repeated multiplier times. */
  function ColumnBits(sub: seq<seq<bool>>, j: nat, multiplier: nat, k: nat): seq<bool>
    requires RowsWide(sub, j + 1)
    decreases |sub| - k
  {
    if k >= |sub| then [] else Fill(sub[k][j], multiplier) + ColumnBits(sub, j, multiplier, k + 1)
  }

  lemma {:induction false} ColumnBitsLength(sub: seq<seq<bool>>, j: nat, multiplier: nat, k: nat)
    requires RowsWide(sub, j + 1) && k <= |sub|
    ensures |ColumnBits(sub, j, multiplier, k)| == (|sub| - k) * multiplier
    decreases |sub| - k
  {
    if k < |sub| {
      ColumnBitsLength(sub, j, multiplier, k + 1);
      assert multiplier + (|sub| - (k + 1)) * multiplier == (|sub| - k) * multiplier;
    }
  }

  /** s * n */
  function RepeatSeq(s: seq<byte>, n: nat): seq<byte>
  {
    if n == 0 then [] else RepeatSeq(s, n - 1) + s
  }

  lemma {:induction false} RepeatSeqLength(s: seq<byte>, n: nat)
    ensures |RepeatSeq(s, n)| == n * |s|
  {
    if n > 0 {
      RepeatSeqLength(s, n - 1);
      assert (n - 1) * |s| + |s| == n * |s|;
    }
  }

  /** bits2byte of at most eight bits, which always fits in a byte. */
  function PackedByte(bits: seq<bool>): byte
    requires |bits| <= 8
  {
    Bits2ByteFits(bits);
    Bits2Byte(bits)
  }

  /** The three bytes of one 24-bit column: bits[0:8], bits[8:16], bits[16:24]. */
  function Split24(bits: seq<bool>): (r: seq<byte>)
    ensures |r| == 3
  {
    [PackedByte(Slice(bits, 0, 8)), PackedByte(Slice(bits, 8, 16)), PackedByte(Slice(bits, 16, 24))]
  }

  /** The bytes one column contributes: its byte 3 * multiplier times, or its three bytes multiplier times. */
  function ColumnBytes(api: int, bits: seq<bool>, multiplier: nat): (r: seq<byte>)
    requires api == GRAPHICS_8BITS ==> |bits| <= 8
  {
    if api == GRAPHICS_8BITS then Fill(PackedByte(bits), 3 * multiplier)
    else RepeatSeq(Split24(bits), multiplier)
  }

  lemma ColumnBytesLength(api: int, bits: seq<bool>, multiplier: nat)
    requires api == GRAPHICS_8BITS ==> |bits| <= 8
    ensures |ColumnBytes(api, bits, multiplier)| == 3 * multiplier
  {
    if api != GRAPHICS_8BITS {
      RepeatSeqLength(Split24(bits), multiplier);
    }
  }

  /** With sub_len * multiplier <= 8 a column of the 8-bit interface fits in one byte. */
  predicate FitsApi(api: int, subLen: nat, multiplier: nat)
  {
    api == GRAPHICS_8BITS ==> subLen * multiplier <= 8
  }

  /** The bytes of the columns j .. w - 1 of a strip, left to right. */
  function StripBytes(api: int, sub: seq<seq<bool>>, w: nat, multiplier: nat, j: nat): seq<byte>
    requires RowsWide(sub, w) && FitsApi(api, |sub|, multiplier)
    decreases w - j
  {
    if j >= w then []
    else
      ColumnBitsLength(sub, j, multiplier, 0);
      ColumnBytes(api, ColumnBits(sub, j, multiplier, 0), multiplier) + StripBytes(api, sub, w, multiplier, j + 1)
  }

  lemma {:induction false} StripBytesLength(api: int, sub: seq<seq<bool>>, w: nat, multiplier: nat, j: nat)
    requires RowsWide(sub, w) && FitsApi(api, |sub|, multiplier) && j <= w
    ensures |StripBytes(api, sub, w, multiplier, j)| == 3 * multiplier * (w - j)
    decreases w - j
  {
    hide Bits2Byte, PackedByte, Split24, ColumnBits, Fill, RepeatSeq, ColumnBytes;
    if j < w {
      ColumnBitsLength(sub, j, multiplier, 0);
      ColumnBytesLength(api, ColumnBits(sub, j, multiplier, 0), multiplier);
      StripBytesLength(api, sub, w, multiplier, j + 1);
      assert 3 * multiplier + 3 * multiplier * (w - (j + 1)) == 3 * multiplier * (w - j);
    }
  }

  /** The centring pad: int(diff / 2) NUL bytes in front when diff = max_cols - len is positive. */
  function Centered(bytes: seq<byte>, maxCols: int, centralized: bool): (r: seq<byte>)
    ensures centralized && maxCols > |bytes| ==> r == Fill(0, (maxCols - |bytes|) / 2) + bytes
    ensures !(centralized && maxCols > |bytes|) ==> r == bytes
  {
    if centralized then
      var diff := maxCols - |bytes|;
      if diff != 0 then
        var pad := if diff > 0 then diff / 2 else -((-diff) / 2);
        (if pad > 0 then Fill(0, pad) else []) + bytes
      else bytes
    else bytes
  }

  /** int(len(bytes_) / (api / 8)) */
  function ColumnCount(api: int, len: nat): int
  {
    if api == GRAPHICS_8BITS then len else len / 3
  }

  /** The strip that starts at row i. */
  function Line(api: int, matrix: seq<seq<bool>>, maxCols: int, multiplier: nat, centralized: bool, subLen: nat, i: nat): RasterLine
    requires |matrix| > 0 && StripWide(matrix, i, subLen) && FitsApi(api, subLen, multiplier)
  {
    var w := |matrix[0]|;
    var sub := StripRows(matrix, i, subLen, w);
    StripRowsWide(matrix, i, subLen, w);
    var bytes := Centered(StripBytes(api, sub, w, multiplier, 0), maxCols, centralized);
    RasterLine(Bytes2Str(bytes), ColumnCount(api, |bytes|))
  }

  /**
   * What a run of the generator produces: the strips yielded, in order, and
   * the exception that ended it, if any. A strip is yielded only once its
   * column loop has finished, so an exception keeps the strips before it.
   */
  datatype Run = Run(yielded: seq<RasterLine>, raised: Option<Exception>)

  /**
   * The strips that start at rows start, start + subLen, ... below
   * len(matrix), up to the first strip holding a row narrower than
   * matrix[0], where bit[j] raises IndexError.
   */
  function RunFrom(api: int, matrix: seq<seq<bool>>, maxCols: int, multiplier: nat, centralized: bool, subLen: nat, start: nat): Run
    requires |matrix| > 0 && FitsApi(api, subLen, multiplier) && subLen > 0
    decreases |matrix| - start
  {
    if start >= |matrix| then Run([], None)
    else if !StripWide(matrix, start, subLen) then Run([], Some(Raise(IndexError)))
    else
      var rest := RunFrom(api, matrix, maxCols, multiplier, centralized, subLen, start + subLen);
      Run([Line(api, matrix, maxCols, multiplier, centralized, subLen, start)] + rest.yielded, rest.raised)
  }

  /** One strip of the run: yielded when its rows are wide enough, IndexError otherwise. */
  lemma RunFromStep(api: int, matrix: seq<seq<bool>>, maxCols: int, multiplier: nat, centralized: bool, subLen: nat, start: nat)
    requires |matrix| > 0 && FitsApi(api, subLen, multiplier) && subLen > 0
    ensures var run := RunFrom(api, matrix, maxCols, multiplier, centralized, subLen, start);
      var rest := RunFrom(api, matrix, maxCols, multiplier, centralized, subLen, start + subLen);
      if start >= |matrix| then run == Run([], None)
      else if StripWide(matrix, start, subLen) then
        run.yielded == [Line(api, matrix, maxCols, multiplier, centralized, subLen, start)] + rest.yielded
        && run.raised == rest.raised
      else run == Run([], Some(Raise(IndexError)))
  {
  }

  /**
   * Iterating matrix2graphics to its end: the strips it yields and the
   * exception it raises. The interface, multiplier and step checks come
   * before the first strip.
   */
  function Graphics(api: int, matrix: seq<seq<bool>>, maxCols: int, multiplier: int, centralized: bool): Run
  {
    if api != GRAPHICS_8BITS && api != GRAPHICS_24BITS then Run([], Some(Raise(ValueError)))
    else if multiplier == 0 then Run([], Some(Raise(ZeroDivisionError)))
    else
      var subLen := SubLen(api, multiplier);
      if subLen == 0 then Run([], Some(Raise(ValueError)))
      else if subLen < 0 || |matrix| == 0 then Run([], None)
      else RunFrom(api, matrix, maxCols, multiplier, centralized, subLen, 0)
  }

  /**
   * matrix2graphics, iterated to the end: the strips of sub_len rows (the
   * last one padded with all-False rows) that it yields in order, and the
   * exception that stops it.
   */
  method Matrix2Graphics(api: int, matrix: seq<seq<bool>>, maxCols: int, multiplier: int, centralized: bool)
    returns (run: Run)
    ensures run == Graphics(api, matrix, maxCols, multiplier, centralized)
  {
    hide Line, RunFrom, StripWide;
    if api != GRAPHICS_8BITS && api != GRAPHICS_24BITS {
      return Run([], Some(Raise(ValueError)));
    }
    if multiplier == 0 {
      return Run([], Some(Raise(ZeroDivisionError)));
    }
    var subLen := SubLen(api, multiplier);
    if subLen == 0 {
      return Run([], Some(Raise(ValueError)));
    }
    if subLen < 0 || |matrix| == 0 {
      return Run([], None);
    }
    var m: nat := multiplier;
    ghost var whole := RunFrom(api, matrix, maxCols, m, centralized, subLen, 0);
    var lines: seq<RasterLine> := [];
    var i: nat := 0;
    while i < |matrix|
      invariant whole.yielded == lines + RunFrom(api, matrix, maxCols, m, centralized, subLen, i).yielded
      invariant whole.raised == RunFrom(api, matrix, maxCols, m, centralized, subLen, i).raised
      decreases |matrix| - i
    {
      RunFromStep(api, matrix, maxCols, m, centralized, subLen, i);
      if !StripWide(matrix, i, subLen) {
        return Run(lines, Some(Raise(IndexError)));
      }
      var line := EncodeLine(api, matrix, maxCols, m, centralized, subLen, i);
      lines := lines + [line];
      i := i + subLen;
    }
    RunFromStep(api, matrix, maxCols, m, centralized, subLen, i);
    return Run(lines, None);
  }

  /** One pass of the strip loop: the rows i .. i + sub_len - 1, packed, centred and converted. */
  method EncodeLine(api: int, matrix: seq<seq<bool>>, maxCols: int, m: nat, centralized: bool, subLen: nat, i: nat)
    returns (line: RasterLine)
    requires |matrix| > 0 && StripWide(matrix, i, subLen) && FitsApi(api, subLen, m)
    ensures line == Line(api, matrix, maxCols, m, centralized, subLen, i)
  {
    hide StripBytes;
    var w := |matrix[0]|;
    var sub := Slice(matrix, i, i + subLen);
    if |sub| < subLen {
      sub := sub + Fill(Fill(false, w), subLen - |sub|);
    }
    SlicedRows(matrix, i, subLen, w);
    StripRowsWide(matrix, i, subLen, w);
    var bytes := EncodeStrip(api, sub, w, m);
    if centralized {
      var diff := maxCols - |bytes|;
      if diff != 0 {
        var pad := if diff > 0 then diff / 2 else -((-diff) / 2);
        bytes := (if pad > 0 then Fill(0, pad) else []) + bytes;
      }
    }
    line := RasterLine(Bytes2Str(bytes), ColumnCount(api, |bytes|));
  }

  /** The column loop of one strip: the bytes of columns 0 .. w - 1, left to right. */
  method EncodeStrip(api: int, sub: seq<seq<bool>>, w: nat, m: nat) returns (bytes: seq<byte>)
    requires RowsWide(sub, w) && FitsApi(api, |sub|, m)
    ensures bytes == StripBytes(api, sub, w, m, 0)
  {
    hide ColumnBytes, ColumnBits;
    bytes := [];
    var j := 0;
    while j < w
      invariant 0 <= j <= w
      invariant bytes + StripBytes(api, sub, w, m, j) == StripBytes(api, sub, w, m, 0)
    {
      var column := EncodeColumn(api, sub, j, m);
      bytes := bytes + column;
      j := j + 1;
    }
  }

  /** One pass of the column loop: the bits of column j packed into bytes. */
  method EncodeColumn(api: int, sub: seq<seq<bool>>, j: nat, m: nat) returns (column: seq<byte>)
    requires RowsWide(sub, j + 1) && FitsApi(api, |sub|, m)
    ensures api == GRAPHICS_8BITS ==> |ColumnBits(sub, j, m, 0)| <= 8
    ensures column == ColumnBytes(api, ColumnBits(sub, j, m, 0), m)
  {
    hide Bits2Byte, PackedByte, Split24, ColumnBits, Fill, RepeatSeq;
    var bits := GatherColumn(sub, j, m);
    ColumnBitsLength(sub, j, m, 0);
    if api == GRAPHICS_8BITS {
      column := Fill(PackedByte(bits), 3 * m);
    } else {
      var splitted := SplitColumn(bits);
      column := RepeatSeq(splitted, m);
    }
  }

  /** The 24-bit packing of one column: bits[k:k + 8] for k in 0, 8, 16. */
  method SplitColumn(bits: seq<bool>) returns (splitted: seq<byte>)
    ensures splitted == Split24(bits)
  {
    splitted := [];
    var k := 0;
    while k < 24
      invariant k == 8 * |splitted| && k <= 24
      invariant splitted == Split24(bits)[..|splitted|]
    {
      splitted := splitted + [PackedByte(Slice(bits, k, k + 8))];
      k := k + 8;
    }
  }

  /** The row loop of one column: bit j of every row, each repeated m times. */
  method GatherColumn(sub: seq<seq<bool>>, j: nat, m: nat) returns (bits: seq<bool>)
    requires RowsWide(sub, j + 1)
    ensures bits == ColumnBits(sub, j, m, 0)
  {
    bits := [];
    var k := 0;
    while k < |sub|
      invariant 0 <= k <= |sub|
      invariant bits + ColumnBits(sub, j, m, k) == ColumnBits(sub, j, m, 0)
    {
      bits := bits + Fill(sub[k][j], m);
      k := k + 1;
    }
  }

  // ---------------------------------------------------------------------
  // Properties of the encoder

  /** Only the 8-bit and 24-bit interfaces are accepted. */
  lemma UnsupportedApiRejected(api: int, matrix: seq<seq<bool>>, maxCols: int, multiplier: int, centralized: bool)
    requires api != GRAPHICS_8BITS && api != GRAPHICS_24BITS
    ensures Graphics(api, matrix, maxCols, multiplier, centralized) == Run([], Some(Raise(ValueError)))
  {
  }

  /** The number of strips range(0, n, subLen) visits. */
  function StripCount(n: int, subLen: nat): nat
    requires subLen > 0
    decreases n
  {
    if n <= 0 then 0 else 1 + StripCount(n - subLen, subLen)
  }

  /** range(0, n, subLen) visits ceil(n / subLen) starts. */
  lemma {:induction false} StripCountCovers(n: int, subLen: nat)
    requires subLen > 0 && n > 0
    ensures var c := StripCount(n, subLen); c >= 1 && c * subLen >= n && (c - 1) * subLen < n
    decreases n
  {
    if n > subLen {
      StripCountCovers(n - subLen, subLen);
      var c' := StripCount(n - subLen, subLen);
      assert (c' + 1) * subLen == c' * subLen + subLen;
    }
  }

  /** The shape of an uncentred strip of a w-column bitmap. */
  predicate PlainShape(l: RasterLine, api: int, multiplier: nat, w: nat)
  {
    |l.data| == 3 * multiplier * w
    && l.columns == (if api == GRAPHICS_8BITS then 3 * multiplier * w else multiplier * w)
  }

  /** An uncentred strip holds 3 * multiplier bytes for each of the w columns. */
  lemma LineShape(api: int, matrix: seq<seq<bool>>, maxCols: int, multiplier: nat, subLen: nat, i: nat)
    requires |matrix| > 0 && StripWide(matrix, i, subLen) && FitsApi(api, subLen, multiplier)
    requires api == GRAPHICS_8BITS || api == GRAPHICS_24BITS
    ensures PlainShape(Line(api, matrix, maxCols, multiplier, false, subLen, i), api, multiplier, |matrix[0]|)
  {
    hide StripBytes;
    var w := |matrix[0]|;
    var sub := StripRows(matrix, i, subLen, w);
    StripRowsWide(matrix, i, subLen, w);
    var b := StripBytes(api, sub, w, multiplier, 0);
    StripBytesLength(api, sub, w, multiplier, 0);
    var c := multiplier * w;
    assert |b| == 3 * c;
    assert Line(api, matrix, maxCols, multiplier, false, subLen, i) == RasterLine(Bytes2Str(b), ColumnCount(api, |b|));
  }

  lemma {:induction false} RunFromCount(api: int, matrix: seq<seq<bool>>, maxCols: int, multiplier: nat, centralized: bool, subLen: nat, start: nat)
    requires |matrix| > 0 && WideRows(matrix) && FitsApi(api, subLen, multiplier) && subLen > 0
    ensures var run := RunFrom(api, matrix, maxCols, multiplier, centralized, subLen, start);
      run.raised.None? && |run.yielded| == StripCount(|matrix| - start, subLen)
    decreases |matrix| - start
  {
    hide Line;
    if start < |matrix| {
      RunFromCount(api, matrix, maxCols, multiplier, centralized, subLen, start + subLen);
    }
  }

  lemma {:induction false} RunFromShape(api: int, matrix: seq<seq<bool>>, maxCols: int, multiplier: nat, subLen: nat, start: nat)
    requires |matrix| > 0 && FitsApi(api, subLen, multiplier) && subLen > 0
    requires api == GRAPHICS_8BITS || api == GRAPHICS_24BITS
    ensures var ls := RunFrom(api, matrix, maxCols, multiplier, false, subLen, start).yielded;
      forall k :: 0 <= k < |ls| ==> PlainShape(ls[k], api, multiplier, |matrix[0]|)
    decreases |matrix| - start
  {
    hide Line;
    if start < |matrix| && StripWide(matrix, start, subLen) {
      LineShape(api, matrix, maxCols, multiplier, subLen, start);
      RunFromShape(api, matrix, maxCols, multiplier, subLen, start + subLen);
      assert RunFrom(api, matrix, maxCols, multiplier, false, subLen, start).yielded
        == [Line(api, matrix, maxCols, multiplier, false, subLen, start)]
           + RunFrom(api, matrix, maxCols, multiplier, false, subLen, start + subLen).yielded;
    }
  }

  /**
   * matrix2graphics without centring: ceil(len(matrix) / sub_len) strips, each
   * of 3 * multiplier bytes per column, and a reported column count equal to
   * that byte count for the 8-bit interface and a third of it for the 24-bit
   * one.
   */
  lemma StripShape(api: int, matrix: seq<seq<bool>>, maxCols: int, multiplier: nat)
    requires WideRows(matrix) && |matrix| > 0
    requires api == GRAPHICS_8BITS || api == GRAPHICS_24BITS
    requires 0 < multiplier <= api
    ensures Graphics(api, matrix, maxCols, multiplier, false).raised.None?
    ensures var lines := Graphics(api, matrix, maxCols, multiplier, false).yielded;
      var subLen := api / multiplier;
      |lines| * subLen >= |matrix| && (|lines| - 1) * subLen < |matrix|
      && forall k :: 0 <= k < |lines| ==> PlainShape(lines[k], api, multiplier, |matrix[0]|)
  {
    hide Line;
    var subLen := api / multiplier;
    StripCountCovers(|matrix|, subLen);
    RunFromCount(api, matrix, maxCols, multiplier, false, subLen, 0);
    RunFromShape(api, matrix, maxCols, multiplier, subLen, 0);
  }

  /** A centred strip: the plain strip behind int(diff / 2) NUL characters when it is narrower than max_cols. */
  predicate CenteredFrom(centred: RasterLine, plain: RasterLine, maxCols: int)
  {
    centred.data == Fill(0 as char, if maxCols > |plain.data| then (maxCols - |plain.data|) / 2 else 0) + plain.data
  }

  lemma LineCentered(api: int, matrix: seq<seq<bool>>, maxCols: int, multiplier: nat, subLen: nat, i: nat)
    requires |matrix| > 0 && StripWide(matrix, i, subLen) && FitsApi(api, subLen, multiplier)
    ensures CenteredFrom(Line(api, matrix, maxCols, multiplier, true, subLen, i),
                         Line(api, matrix, maxCols, multiplier, false, subLen, i), maxCols)
  {
    hide StripBytes;
    var w := |matrix[0]|;
    var sub := StripRows(matrix, i, subLen, w);
    StripRowsWide(matrix, i, subLen, w);
    var b := StripBytes(api, sub, w, multiplier, 0);
    var pad := if maxCols > |b| then (maxCols - |b|) / 2 else 0;
    var zeros: seq<byte> := Fill(0, pad);
    Bytes2StrConcat(zeros, b);
    FillIndex<byte>(0, pad);
    FillIndex(0 as char, pad);
    assert Bytes2Str(zeros) == Fill(0 as char, pad);
  }

  lemma {:induction false} RunFromCentered(api: int, matrix: seq<seq<bool>>, maxCols: int, multiplier: nat, subLen: nat, start: nat)
    requires |matrix| > 0 && FitsApi(api, subLen, multiplier) && subLen > 0
    ensures var plain := RunFrom(api, matrix, maxCols, multiplier, false, subLen, start);
      var centred := RunFrom(api, matrix, maxCols, multiplier, true, subLen, start);
      centred.raised == plain.raised && |centred.yielded| == |plain.yielded|
      && forall k :: 0 <= k < |plain.yielded| ==> CenteredFrom(centred.yielded[k], plain.yielded[k], maxCols)
    decreases |matrix| - start
  {
    hide Line;
    if start < |matrix| && StripWide(matrix, start, subLen) {
      LineCentered(api, matrix, maxCols, multiplier, subLen, start);
      RunFromCentered(api, matrix, maxCols, multiplier, subLen, start + subLen);
    }
  }

  /**
   * Centring raises exactly what the plain run raises, yields as many
   * strips, and only pads each strip on the left.
   */
  lemma CenteringPrependsZeros(api: int, matrix: seq<seq<bool>>, maxCols: int, multiplier: int)
    ensures var plain := Graphics(api, matrix, maxCols, multiplier, false);
      var centred := Graphics(api, matrix, maxCols, multiplier, true);
      centred.raised == plain.raised && |centred.yielded| == |plain.yielded|
      && forall k :: 0 <= k < |plain.yielded| ==> CenteredFrom(centred.yielded[k], plain.yielded[k], maxCols)
  {
    hide Line;
    if (api == GRAPHICS_8BITS || api == GRAPHICS_24BITS) && multiplier != 0 && SubLen(api, multiplier) > 0
      && |matrix| > 0 {
        RunFromCentered(api, matrix, maxCols, multiplier, SubLen(api, multiplier), 0);
    }
  }

  /** The rows from start on are all at least as wide as the first row. */
  predicate WideFrom(matrix: seq<seq<bool>>, start: nat)
    requires |matrix| > 0
  {
    forall r :: start <= r < |matrix| ==> |matrix[r]| >= |matrix[0]|
  }

  /** The rows from start on are wide exactly when the strip at start and the rows after it are. */
  lemma WideFromStep(matrix: seq<seq<bool>>, start: nat, subLen: nat)
    requires |matrix| > 0 && start < |matrix|
    ensures WideFrom(matrix, start) <==> StripWide(matrix, start, subLen) && WideFrom(matrix, start + subLen)
  {
  }

  /**
   * A run from row start on ends in an exception exactly when some row from
   * start on is narrower than matrix[0], and that exception is IndexError.
   */
  lemma {:induction false} RunFromRaises(api: int, matrix: seq<seq<bool>>, maxCols: int, multiplier: nat, centralized: bool, subLen: nat, start: nat)
    requires |matrix| > 0 && FitsApi(api, subLen, multiplier) && subLen > 0
    ensures var run := RunFrom(api, matrix, maxCols, multiplier, centralized, subLen, start);
      (run.raised.None? <==> WideFrom(matrix, start))
      && (run.raised.Some? ==> run.raised == Some(Raise(IndexError)))
    decreases |matrix| - start
  {
    hide Line, RunFrom, StripWide;
    RunFromStep(api, matrix, maxCols, multiplier, centralized, subLen, start);
    if start < |matrix| {
      WideFromStep(matrix, start, subLen);
      if StripWide(matrix, start, subLen) {
        RunFromRaises(api, matrix, maxCols, multiplier, centralized, subLen, start + subLen);
      }
    }
  }

  /** When a run raises, the strip after the last one yielded holds a row too narrow. */
  lemma {:induction false} RunFromStops(api: int, matrix: seq<seq<bool>>, maxCols: int, multiplier: nat, centralized: bool, subLen: nat, start: nat)
    requires |matrix| > 0 && FitsApi(api, subLen, multiplier) && subLen > 0
    ensures var run := RunFrom(api, matrix, maxCols, multiplier, centralized, subLen, start);
      run.raised.Some? ==>
        StripAt(start, subLen, |run.yielded|) < |matrix| && !StripWide(matrix, StripAt(start, subLen, |run.yielded|), subLen)
    decreases |matrix| - start
  {
    hide Line, RunFrom, StripWide;
    RunFromStep(api, matrix, maxCols, multiplier, centralized, subLen, start);
    if start < |matrix| && StripWide(matrix, start, subLen) {
      var rest := RunFrom(api, matrix, maxCols, multiplier, centralized, subLen, start + subLen);
      RunFromStops(api, matrix, maxCols, multiplier, centralized, subLen, start + subLen);
      StepArithmetic(start, subLen, |rest.yielded|);
    }
  }

  /** The k-th strip a run from row start yields is the strip at start + k * subLen. */
  lemma {:induction false} RunFromStrips(api: int, matrix: seq<seq<bool>>, maxCols: int, multiplier: nat, centralized: bool, subLen: nat, start: nat)
    requires |matrix| > 0 && FitsApi(api, subLen, multiplier) && subLen > 0
    ensures var run := RunFrom(api, matrix, maxCols, multiplier, centralized, subLen, start);
      forall k :: 0 <= k < |run.yielded| ==>
        StripWide(matrix, StripAt(start, subLen, k), subLen)
        && run.yielded[k] == Line(api, matrix, maxCols, multiplier, centralized, subLen, StripAt(start, subLen, k))
    decreases |matrix| - start
  {
    hide Line, RunFrom, StripWide;
    var run := RunFrom(api, matrix, maxCols, multiplier, centralized, subLen, start);
    RunFromStep(api, matrix, maxCols, multiplier, centralized, subLen, start);
    if start < |matrix| && StripWide(matrix, start, subLen) {
      var next := start + subLen;
      var rest := RunFrom(api, matrix, maxCols, multiplier, centralized, subLen, next);
      RunFromStrips(api, matrix, maxCols, multiplier, centralized, subLen, next);
      forall k | 0 <= k < |run.yielded|
        ensures StripWide(matrix, StripAt(start, subLen, k), subLen)
          && run.yielded[k] == Line(api, matrix, maxCols, multiplier, centralized, subLen, StripAt(start, subLen, k))
      {
        if k > 0 {
          StepArithmetic(start, subLen, k - 1);
          assert run.yielded[k] == rest.yielded[k - 1];
        }
      }
    }
  }

  /** The first row of the k-th strip from row start. */
  function StripAt(start: nat, subLen: nat, k: nat): nat
  {
    start + k * subLen
  }

  /** Strip k + 1 from start is strip k from start + subLen. */
  lemma StepArithmetic(start: nat, subLen: nat, k: nat)
    ensures StripAt(start, subLen, k + 1) == StripAt(start + subLen, subLen, k)
  {
  }

  /**
   * matrix2graphics yields the strips at rows 0, sub_len, 2 * sub_len, ...
   * in order, and stops with IndexError, after the strips before it,
   * exactly when some row is narrower than the first one; the strip after
   * the last one yielded is the one that holds it.
   */
  lemma YieldedBeforeNarrow(api: int, matrix: seq<seq<bool>>, maxCols: int, multiplier: int, centralized: bool)
    requires api == GRAPHICS_8BITS || api == GRAPHICS_24BITS
    requires 0 < multiplier <= api && |matrix| > 0
    ensures var run := Graphics(api, matrix, maxCols, multiplier, centralized);
      var subLen := SubLen(api, multiplier);
      && (run.raised.None? <==> WideRows(matrix))
      && (run.raised.Some? ==>
            (run.raised == Some(Raise(IndexError))
             && StripAt(0, subLen, |run.yielded|) < |matrix|
             && !StripWide(matrix, StripAt(0, subLen, |run.yielded|), subLen)))
      && (forall k :: 0 <= k < |run.yielded| ==>
            StripWide(matrix, StripAt(0, subLen, k), subLen)
            && run.yielded[k] == Line(api, matrix, maxCols, multiplier, centralized, subLen, StripAt(0, subLen, k)))
  {
    hide Line;
    var subLen := SubLen(api, multiplier);
    RunFromRaises(api, matrix, maxCols, multiplier, centralized, subLen, 0);
    RunFromStops(api, matrix, maxCols, multiplier, centralized, subLen, 0);
    RunFromStrips(api, matrix, maxCols, multiplier, centralized, subLen, 0);
  }

  // ---------------------------------------------------------------------
  // A blank bitmap

  /** bits2byte of bits none of which is set is 0. */
  lemma ClearBitsPackToZero(bits: seq<bool>)
    requires forall t :: 0 <= t < |bits| ==> !bits[t]
    ensures Bits2Byte(bits) == 0
  {
    FillIndex(false, |bits|);
    assert bits == Fill(false, |bits|);
    Bits2ByteAllFalse(|bits|);
  }

  /** A column with no bit set gathers only False bits, which pack to 0. */
  lemma {:induction false} BlankColumnBits(sub: seq<seq<bool>>, j: nat, multiplier: nat, k: nat)
    requires RowsWide(sub, j + 1)
    requires forall r :: 0 <= r < |sub| ==> !sub[r][j]
    ensures forall t :: 0 <= t < |ColumnBits(sub, j, multiplier, k)| ==> !ColumnBits(sub, j, multiplier, k)[t]
    decreases |sub| - k
  {
    if k < |sub| {
      BlankColumnBits(sub, j, multiplier, k + 1);
      FillIndex(sub[k][j], multiplier);
    }
  }

  /** s * n holds only the bytes of s. */
  lemma {:induction false} RepeatSeqZeros(s: seq<byte>, n: nat)
    requires forall t :: 0 <= t < |s| ==> s[t] == 0
    ensures forall t :: 0 <= t < |RepeatSeq(s, n)| ==> RepeatSeq(s, n)[t] == 0
  {
    if n > 0 { RepeatSeqZeros(s, n - 1); }
  }

  /** A column of clear bits contributes only zero bytes, on either interface. */
  lemma ClearColumnBytes(api: int, bits: seq<bool>, multiplier: nat)
    requires api == GRAPHICS_8BITS ==> |bits| <= 8
    requires forall t :: 0 <= t < |bits| ==> !bits[t]
    ensures forall t :: 0 <= t < |ColumnBytes(api, bits, multiplier)| ==> ColumnBytes(api, bits, multiplier)[t] == 0
  {
    if api == GRAPHICS_8BITS {
      ClearBitsPackToZero(bits);
      FillIndex(PackedByte(bits), 3 * multiplier);
    } else {
      ClearBitsPackToZero(Slice(bits, 0, 8));
      ClearBitsPackToZero(Slice(bits, 8, 16));
      ClearBitsPackToZero(Slice(bits, 16, 24));
      RepeatSeqZeros(Split24(bits), multiplier);
    }
  }

  /** The columns j .. w - 1 of a blank strip pack to zero bytes only. */
  lemma {:induction false} BlankStripBytes(api: int, sub: seq<seq<bool>>, w: nat, multiplier: nat, j: nat)
    requires RowsWide(sub, w) && FitsApi(api, |sub|, multiplier) && Blank(sub)
    ensures forall t :: 0 <= t < |StripBytes(api, sub, w, multiplier, j)| ==> StripBytes(api, sub, w, multiplier, j)[t] == 0
    decreases w - j
  {
    hide ColumnBits, ColumnBytes;
    if j < w {
      var bits := ColumnBits(sub, j, multiplier, 0);
      BlankColumnBits(sub, j, multiplier, 0);
      ColumnBitsLength(sub, j, multiplier, 0);
      ClearColumnBytes(api, bits, multiplier);
      BlankStripBytes(api, sub, w, multiplier, j + 1);
    }
  }

  /** Every character of a strip of a blank bitmap is NUL, the centring pad included. */
  lemma BlankLine(api: int, matrix: seq<seq<bool>>, maxCols: int, multiplier: nat, centralized: bool, subLen: nat, i: nat)
    requires |matrix| > 0 && StripWide(matrix, i, subLen) && FitsApi(api, subLen, multiplier) && Blank(matrix)
    ensures var data := Line(api, matrix, maxCols, multiplier, centralized, subLen, i).data;
      forall t :: 0 <= t < |data| ==> data[t] == 0 as char
  {
    hide StripBytes;
    var w := |matrix[0]|;
    var sub := StripRows(matrix, i, subLen, w);
    StripRowsWide(matrix, i, subLen, w);
    FillIndex(false, w);
    forall r, c | 0 <= r < |sub| && 0 <= c < |sub[r]|
      ensures !sub[r][c]
    {
      if i + r < |matrix| {
        assert sub[r] == matrix[i + r];
      } else {
        assert sub[r] == Fill(false, w);
      }
    }
    var b := StripBytes(api, sub, w, multiplier, 0);
    BlankStripBytes(api, sub, w, multiplier, 0);
    var c := Centered(b, maxCols, centralized);
    if centralized && maxCols > |b| {
      FillIndex<byte>(0, (maxCols - |b|) / 2);
    }
    assert forall t :: 0 <= t < |c| ==> c[t] == 0;
  }

  lemma {:induction false} BlankRunFrom(api: int, matrix: seq<seq<bool>>, maxCols: int, multiplier: nat, centralized: bool, subLen: nat, start: nat)
    requires |matrix| > 0 && FitsApi(api, subLen, multiplier) && subLen > 0 && Blank(matrix)
    ensures var ls := RunFrom(api, matrix, maxCols, multiplier, centralized, subLen, start).yielded;
      forall k, t :: 0 <= k < |ls| && 0 <= t < |ls[k].data| ==> ls[k].data[t] == 0 as char
    decreases |matrix| - start
  {
    hide Line;
    if start < |matrix| && StripWide(matrix, start, subLen) {
      BlankLine(api, matrix, maxCols, multiplier, centralized, subLen, start);
      BlankRunFrom(api, matrix, maxCols, multiplier, centralized, subLen, start + subLen);
      assert RunFrom(api, matrix, maxCols, multiplier, centralized, subLen, start).yielded
        == [Line(api, matrix, maxCols, multiplier, centralized, subLen, start)]
           + RunFrom(api, matrix, maxCols, multiplier, centralized, subLen, start + subLen).yielded;
    }
  }

  /**
   * A bitmap with no bit set yields only NUL characters: every column packs
   * to 0, and the centring pad is made of 0 too.
   */
  lemma Matrix2GraphicsBlank(api: int, matrix: seq<seq<bool>>, maxCols: int, multiplier: int, centralized: bool)
    requires Blank(matrix)
    ensures var ls := Graphics(api, matrix, maxCols, multiplier, centralized).yielded;
      forall k, t :: 0 <= k < |ls| && 0 <= t < |ls[k].data| ==> ls[k].data[t] == 0 as char
  {
    hide Line;
    if (api == GRAPHICS_8BITS || api == GRAPHICS_24BITS) && multiplier != 0 && SubLen(api, multiplier) > 0
      && |matrix| > 0 {
        var subLen := SubLen(api, multiplier);
        BlankRunFrom(api, matrix, maxCols, multiplier, centralized, subLen, 0);
        assert Graphics(api, matrix, maxCols, multiplier, centralized)
          == RunFrom(api, matrix, maxCols, multiplier, centralized, subLen, 0);
    }
  }
}
