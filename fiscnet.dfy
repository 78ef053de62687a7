/*
 * FiscNetECF: the textual FiscNet protocol. A command goes out as
 * `{id;Command;Name=value Name=value;}` with the parameters sorted by name,
 * and the reply `{id;code;Name=value ...;...}` is split into sections, its
 * return values parsed into a dictionary, and a non-zero code turned into the
 * driver exception mapped to it. Registers are read with the Le* commands and
 * converted to int, Decimal, date, str or bool.
 */
module FiscNet {
  import opened Common
  import opened Utils
  import opened Serial
  import opened PrinterBase
  import opened Decimals
  import Fiscal

  // ---------------------------------------------------------------------
  // Rendering parameters

  /** A keyword argument of _send_command: Decimal, bytes, str, bool, date or int. */
  datatype Value =
    | DecimalArg(x: real)
    | BytesArg(data: seq<byte>)
    | StrArg(s: string)
    | BoolArg(flag: bool)
    | DateArg(d: Date)
    | IntArg(n: int)

  type Param = (string, Value)

  /** The whole number of thousandths nearest to |x|, ties to even. */
  function Thousandths(x: real): (k: nat)
  {
    var k := RoundHalfEven(if x < 0.0 then -x * 1000.0 else x * 1000.0);
    assert k >= 0;
    k
  }

  /** ('%.03f' % x).replace('.', ','): three decimals after a comma, the sign kept for negative values. */
  function FormatMoney(x: real): (s: string)
  {
    var k := Thousandths(x);
    (if x < 0.0 then "-" else "") + NatToString(k / 1000) + "," + PadLeft(NatToString(k % 1000), 3, '0')
  }

  /** The value FormatMoney writes: x rounded to thousandths, half to even. */
  function Milli(x: real): real
  {
    (if x < 0.0 then -1.0 else 1.0) * Thousandths(x) as real / 1000.0
  }

  /** date.strftime('#%d/%m/%y#') */
  function FormatDate(d: Date): string
  {
    "#" + FormatZeroPadded(d.day, 2) + "/" + FormatZeroPadded(d.month, 2) + "/" + FormatZeroPadded(d.year % 100, 2) + "#"
  }

  /** How one argument is written after its `name=`. */
  function RenderValue(v: Value): string
  {
    match v
    case DecimalArg(x) => FormatMoney(x)
    case BytesArg(data) => "\"" + Bytes2Str(data) + "\""
    case StrArg(s) => "\"" + s + "\""
    case BoolArg(flag) => if flag then "t" else "f"
    case DateArg(d) => FormatDate(d)
    case IntArg(n) => IntToString(n)
  }

  /** '%s=%s' % (param, value) */
  function ParamText(p: Param): string
  {
    p.0 + "=" + RenderValue(p.1)
  }

  /** Python's str < : code point by code point, a proper prefix first. */
  predicate StrLt(a: string, b: string)
  {
    if a == [] then b != []
    else if b == [] then false
    else if a[0] != b[0] then a[0] < b[0]
    else StrLt(a[1..], b[1..])
  }

  lemma {:induction false} StrLtAsymmetric(a: string, b: string)
    ensures StrLt(a, b) ==> !StrLt(b, a)
  {
    if a != [] && b != [] && a[0] == b[0] {
      StrLtAsymmetric(a[1..], b[1..]);
    }
  }

  /** Two different names are always ordered one way or the other. */
  lemma {:induction false} StrLtTotal(a: string, b: string)
    requires a != b
    ensures StrLt(a, b) || StrLt(b, a)
  {
    if a != [] && b != [] && a[0] == b[0] {
      assert a == [a[0]] + a[1..] && b == [b[0]] + b[1..];
      StrLtTotal(a[1..], b[1..]);
    }
  }

  /** Every name is no smaller than the one before it. */
  predicate SortedByName(ps: seq<Param>)
  {
    forall i :: 0 < i < |ps| ==> !StrLt(ps[i].0, ps[i - 1].0)
  }

  /** p placed before the first entry whose name is not smaller than its own. */
  function Insert(p: Param, ps: seq<Param>): (r: seq<Param>)
    ensures |r| == |ps| + 1
    ensures multiset(r) == multiset(ps) + multiset{p}
    ensures r[0] == p || (ps != [] && r[0] == ps[0])
  {
    if ps == [] || !StrLt(ps[0].0, p.0) then [p] + ps
    else
      assert ps == [ps[0]] + ps[1..];
      [ps[0]] + Insert(p, ps[1..])
  }

  lemma {:induction false} InsertSorted(p: Param, ps: seq<Param>)
    requires SortedByName(ps)
    ensures SortedByName(Insert(p, ps))
  {
    if ps != [] && StrLt(ps[0].0, p.0) {
      var tail := Insert(p, ps[1..]);
      InsertSorted(p, ps[1..]);
      StrLtAsymmetric(ps[0].0, p.0);
      assert !StrLt(tail[0].0, ps[0].0);
      assert Insert(p, ps) == [ps[0]] + tail;
    }
  }

  /** sorted(params.items()): the arguments in name order. */
  function SortParams(ps: seq<Param>): (r: seq<Param>)
    ensures multiset(r) == multiset(ps)
  {
    if ps == [] then []
    else
      assert ps == [ps[0]] + ps[1..];
      Insert(ps[0], SortParams(ps[1..]))
  }

  /** The order _send_command writes the arguments in is sorted by name and loses or adds nothing. */
  lemma {:induction false} SortParamsSorted(ps: seq<Param>)
    ensures SortedByName(SortParams(ps))
    ensures multiset(SortParams(ps)) == multiset(ps)
  {
    if ps != [] {
      SortParamsSorted(ps[1..]);
      InsertSorted(ps[0], SortParams(ps[1..]));
      assert ps == [ps[0]] + ps[1..];
    }
  }

  /** With distinct keyword names, the sorted names strictly increase. */
  lemma StrictlySorted(ps: seq<Param>)
    requires SortedByName(ps)
    requires forall i, j :: 0 <= i < j < |ps| ==> ps[i].0 != ps[j].0
    ensures forall i :: 0 < i < |ps| ==> StrLt(ps[i - 1].0, ps[i].0)
  {
    forall i | 0 < i < |ps|
      ensures StrLt(ps[i - 1].0, ps[i].0)
    {
      StrLtTotal(ps[i - 1].0, ps[i].0);
    }
  }

  /** The name=value texts, in order. */
  function ParamTexts(ps: seq<Param>): (r: seq<string>)
    ensures |r| == |ps|
    ensures forall i :: 0 <= i < |ps| ==> r[i] == ParamText(ps[i])
  {
    seq(|ps|, i requires 0 <= i < |ps| => ParamText(ps[i]))
  }

  /** ' '.join(parts) */
  function JoinSpace(parts: seq<string>): string
  {
    if parts == [] then "" else if |parts| == 1 then parts[0] else parts[0] + " " + JoinSpace(parts[1..])
  }

  /** "%d;%s;%s;" % (command_id, command, ' '.join(parameters)) */
  function CommandLine(id: int, command: string, ps: seq<Param>): string
  {
    IntToString(id) + ";" + command + ";" + JoinSpace(ParamTexts(SortParams(ps))) + ";"
  }

  /** The bytes writeline puts on the wire for one command line: the line between '{' and '}'. */
  function Frame(line: string): string
  {
    "{" + line + "}"
  }

  /** A command with a single argument writes just that name=value between its semicolons. */
  lemma SingleParamLine(id: int, command: string, p: Param)
    ensures CommandLine(id, command, [p]) == IntToString(id) + ";" + command + ";" + ParamText(p) + ";"
  {
    hide ParamText, IntToString;
    assert SortParams([p]) == [p] by {
      assert [p][1..] == [];
    }
    assert ParamTexts([p]) == [ParamText(p)];
  }

  lemma ZeroText()
    ensures IntToString(0) == "0"
  {
    assert NatToString(0) == [DigitChar(0)];
  }

  lemma IndicadoresText()
    ensures ParamText(("NomeInteiro", StrArg("Indicadores"))) == "NomeInteiro=\"Indicadores\""
  {
  }

  /** The status query is exactly the frame _send_command writes for LeInteiro of Indicadores. */
  lemma QueryStatusFrame()
    ensures Frame(CommandLine(0, "LeInteiro", [("NomeInteiro", StrArg("Indicadores"))])) ==
            "{0;LeInteiro;" + "NomeInteiro=\"Indicadores\"" + ";}"
  {
    hide ParamText, IntToString, CommandLine;
    var p: Param := ("NomeInteiro", StrArg("Indicadores"));
    ZeroText();
    IndicadoresText();
    SingleParamLine(0, "LeInteiro", p);
    assert "{" + ("0" + ";" + "LeInteiro" + ";") == "{0;LeInteiro;";
  }

  // ---------------------------------------------------------------------
  // Parsing return values

  /** A character a return-value name may hold: [^=\s;] */
  predicate TokenChar(c: char) { c != '=' && c != ';' && !IsSpace(c) }

  /** A character a bare value may hold: [^\s;] */
  predicate BareChar(c: char) { c != ';' && !IsSpace(c) }

  /** The end of the run of \s starting at i. */
  function SpaceEnd(t: string, i: nat): (j: nat)
    requires i <= |t|
    ensures i <= j <= |t|
    ensures forall k :: i <= k < j ==> IsSpace(t[k])
    ensures j < |t| ==> !IsSpace(t[j])
    decreases |t| - i
  {
    if i < |t| && IsSpace(t[i]) then SpaceEnd(t, i + 1) else i
  }

  /** The end of the run of name characters starting at i. */
  function TokenEnd(t: string, i: nat): (j: nat)
    requires i <= |t|
    ensures i <= j <= |t|
    ensures forall k :: i <= k < j ==> TokenChar(t[k])
    ensures j < |t| ==> !TokenChar(t[j])
    decreases |t| - i
  {
    if i < |t| && TokenChar(t[i]) then TokenEnd(t, i + 1) else i
  }

  /** The end of the run of bare-value characters starting at i. */
  function BareEnd(t: string, i: nat): (j: nat)
    requires i <= |t|
    ensures i <= j <= |t|
    ensures forall k :: i <= k < j ==> BareChar(t[k])
    ensures j < |t| ==> !BareChar(t[j])
    decreases |t| - i
  {
    if i < |t| && BareChar(t[i]) then BareEnd(t, i + 1) else i
  }

  /**
   * The closing quote of ([^"\\]*(?:\\.[^"\\]*)*)" from i: plain characters
   * and backslash pairs (the escaped character not a newline); None when a
   * backslash cannot pair or the text ends first.
   */
  function QuotedEnd(t: string, i: nat): (r: Option<nat>)
    requires i <= |t|
    ensures r.Some? ==> i <= r.value < |t| && t[r.value] == '"'
    decreases |t| - i
  {
    if i == |t| then None
    else if t[i] == '"' then Some(i)
    else if t[i] == '\\' then (if i + 1 < |t| && t[i + 1] != '\n' then QuotedEnd(t, i + 2) else None)
    else QuotedEnd(t, i + 1)
  }

  /** re.sub(r"\\(.)", r"\1", s): each backslash pair becomes its second character. */
  function Unescape(s: string): (r: string)
    ensures |r| <= |s|
  {
    if s == [] then []
    else if s[0] == '\\' && |s| >= 2 && s[1] != '\n' then [s[1]] + Unescape(s[2..])
    else [s[0]] + Unescape(s[1..])
  }

  /** One name and its value (None for a lone name), with the text left after them. */
  datatype Entry = Entry(name: string, value: Option<string>, rest: string)

  /**
   * One turn of the _parse_return_value loop: the name (leading space
   * skipped), then its value, the matched text cut off the front each time.
   * None is the AssertionError for text with no name at its head.
   */
  function NextEntry(t: string): (r: Option<Entry>)
    ensures r.Some? ==> |r.value.rest| < |t| && r.value.name != []
  {
    var a := SpaceEnd(t, 0);
    var b := TokenEnd(t, a);
    if b == a then None else Some(ValueAfter(t[a..b], t[b..]))
  }

  /** After the name: '=' (past any space) and a value, or else a lone name whose value is None. */
  function ValueAfter(name: string, u: string): (r: Entry)
    ensures r.name == name && |r.rest| <= |u|
  {
    var c := SpaceEnd(u, 0);
    if c < |u| && u[c] == '=' then ValueFrom(name, u, SpaceEnd(u, c + 1)) else Entry(name, None, u)
  }

  /** The value starting at d: a quoted value, unescaped, else a bare one, rstripped. */
  function ValueFrom(name: string, u: string, d: nat): (r: Entry)
    requires d <= |u|
    ensures r.name == name && |r.rest| <= |u| - d
  {
    var q := if d < |u| && u[d] == '"' then QuotedEnd(u, d + 1) else None;
    if q.Some? then Entry(name, Some(Unescape(u[d + 1..q.value])), u[q.value + 1..])
    else
      var e := BareEnd(u, d);
      Entry(name, Some(RStrip(u[d..e])), u[e..])
  }

  /** The dictionary of return values; a lone name maps to None. */
  type RetDict = map<string, Option<string>>

  /** _parse_return_value(text), continuing from the entries parsed so far. */
  function ParseFrom(t: string, acc: RetDict): Result<RetDict>
    decreases |t|
  {
    if t == [] then Ok(acc)
    else match NextEntry(t)
      case None => Err(Raise(AssertionError))
      case Some(e) => ParseFrom(e.rest, acc[e.name := e.value])
  }

  /** _parse_return_value: entries are cut off the front of the text until none is left. */
  method ParseReturnValue(text: string) returns (r: Result<RetDict>)
    ensures r == ParseFrom(text, map[])
  {
    var result: RetDict := map[];
    var rest := text;
    while rest != []
      invariant ParseFrom(rest, result) == ParseFrom(text, map[])
      decreases |rest|
    {
      var e := NextEntry(rest);
      if e.None? {
        return Err(Raise(AssertionError));
      }
      result := result[e.value.name := e.value.value];
      rest := e.value.rest;
    }
    r := Ok(result);
  }

  // ---------------------------------------------------------------------
  // What the parser reads back

  /** A name the parser reads back whole: at least one character, none of them '=', ';' or whitespace. */
  predicate ValidName(n: string) { n != [] && forall i :: 0 <= i < |n| ==> TokenChar(n[i]) }

  predicate AllSpace(s: string) { forall i :: 0 <= i < |s| ==> IsSpace(s[i]) }

  /** A backslash before each '"' and each backslash: the escaping that Unescape undoes. */
  function Escape(s: string): (r: string)
    ensures |r| >= |s|
  {
    if s == [] then []
    else (if s[0] == '"' || s[0] == '\\' then ['\\', s[0]] else [s[0]]) + Escape(s[1..])
  }

  lemma {:induction false} UnescapeEscape(s: string)
    ensures Unescape(Escape(s)) == s
  {
    if s != [] {
      UnescapeEscape(s[1..]);
      var e := Escape(s);
      if s[0] == '"' || s[0] == '\\' {
        assert e[0] == '\\' && e[1] == s[0] && e[2..] == Escape(s[1..]);
      } else {
        assert e[0] == s[0] && e[1..] == Escape(s[1..]);
      }
      assert s == [s[0]] + s[1..];
    }
  }

  /** An escaped value is scanned up to the quote that follows it, and no further. */
  lemma {:induction false} QuotedEndEscaped(t: string, i: nat, s: string)
    requires i + |Escape(s)| < |t|
    requires t[i..i + |Escape(s)|] == Escape(s) && t[i + |Escape(s)|] == '"'
    ensures QuotedEnd(t, i) == Some(i + |Escape(s)|)
    decreases |s|
  {
    if s != [] {
      var e := Escape(s);
      var h := if s[0] == '"' || s[0] == '\\' then 2 else 1;
      assert e == (if h == 2 then ['\\', s[0]] else [s[0]]) + Escape(s[1..]);
      assert t[i] == e[0] && (h == 2 ==> t[i + 1] == e[1]);
      assert e[h..] == Escape(s[1..]);
      assert t[i + h..i + |e|] == t[i..i + |e|][h..];
      QuotedEndEscaped(t, i + h, s[1..]);
    }
  }

  /** name="value" with the value escaped. */
  function Quoted(n: string, v: string): string
  {
    n + "=\"" + Escape(v) + "\""
  }

  /** The run of spaces from i ends where the characters that follow the spaces begin. */
  lemma {:induction false} SpaceEndAt(t: string, i: nat, j: nat)
    requires i <= j <= |t|
    requires forall k :: i <= k < j ==> IsSpace(t[k])
    requires j < |t| ==> !IsSpace(t[j])
    ensures SpaceEnd(t, i) == j
    decreases j - i
  {
    if i < j {
      SpaceEndAt(t, i + 1, j);
    }
  }

  lemma {:induction false} TokenEndAt(t: string, i: nat, j: nat)
    requires i <= j <= |t|
    requires forall k :: i <= k < j ==> TokenChar(t[k])
    requires j < |t| ==> !TokenChar(t[j])
    ensures TokenEnd(t, i) == j
    decreases j - i
  {
    if i < j {
      TokenEndAt(t, i + 1, j);
    }
  }

  lemma {:induction false} BareEndAt(t: string, i: nat, j: nat)
    requires i <= j <= |t|
    requires forall k :: i <= k < j ==> BareChar(t[k])
    requires j < |t| ==> !BareChar(t[j])
    ensures BareEnd(t, i) == j
    decreases j - i
  {
    if i < j {
      BareEndAt(t, i + 1, j);
    }
  }

  /** A valid name followed by `rest` is read up to its last character. */
  lemma NameRead(pre: string, n: string, rest: string)
    requires AllSpace(pre) && ValidName(n)
    requires rest == [] || !TokenChar(rest[0])
    ensures SpaceEnd(pre + n + rest, 0) == |pre|
    ensures TokenEnd(pre + n + rest, |pre|) == |pre| + |n|
    ensures (pre + n + rest)[|pre|..|pre| + |n|] == n && (pre + n + rest)[|pre| + |n|..] == rest
  {
    var t := pre + n + rest;
    assert forall k :: 0 <= k < |pre| ==> t[k] == pre[k];
    assert forall k :: |pre| <= k < |pre| + |n| ==> t[k] == n[k - |pre|];
    assert rest != [] ==> t[|pre| + |n|] == rest[0];
    SpaceEndAt(t, 0, |pre|);
    TokenEndAt(t, |pre|, |pre| + |n|);
    assert t[|pre|..|pre| + |n|] == n;
    assert t[|pre| + |n|..] == rest;
  }

  /** A name that the parser reads whole is followed by what comes after it. */
  lemma NameThenValue(pre: string, n: string, u: string)
    requires AllSpace(pre) && ValidName(n)
    requires u == [] || !TokenChar(u[0])
    ensures NextEntry(pre + n + u) == Some(ValueAfter(n, u))
  {
    hide ValueAfter;
    NameRead(pre, n, u);
  }

  /** An '=' right after the name, then the value from the next character. */
  lemma EqualsThenValue(n: string, u: string)
    requires |u| >= 2 && u[0] == '=' && !IsSpace(u[1])
    ensures ValueAfter(n, u) == ValueFrom(n, u, 1)
  {
    hide ValueFrom;
    SpaceEndAt(u, 0, 0);
    SpaceEndAt(u, 1, 1);
  }

  /** One name="escaped value" entry is read back as that name and value, and the text after it is left. */
  lemma NextQuoted(pre: string, n: string, v: string, rest: string)
    requires AllSpace(pre) && ValidName(n)
    ensures NextEntry(pre + Quoted(n, v) + rest) == Some(Entry(n, Some(v), rest))
  {
    var e := Escape(v);
    var u := "=\"" + e + "\"" + rest;
    assert pre + Quoted(n, v) + rest == pre + n + u;
    NameThenValue(pre, n, u);
    EqualsThenValue(n, u);
    QuotedValue(n, v, rest);
  }

  lemma QuotedValue(n: string, v: string, rest: string)
    ensures ValueFrom(n, "=\"" + Escape(v) + "\"" + rest, 1) == Entry(n, Some(v), rest)
  {
    hide Escape, Unescape, QuotedEnd, BareEnd, RStrip;
    var e := Escape(v);
    var u := "=\"" + e + "\"" + rest;
    assert u[1] == '"';
    assert u[2..2 + |e|] == e && u[2 + |e|] == '"';
    QuotedEndEscaped(u, 2, v);
    UnescapeEscape(v);
    assert u[2 + |e| + 1..] == rest;
  }

  /** name=value with a bare value (no quote first, no space or ';' in it) is read back with that value. */
  lemma NextBare(pre: string, n: string, w: string, rest: string)
    requires AllSpace(pre) && ValidName(n)
    requires w != [] && w[0] != '"' && forall i :: 0 <= i < |w| ==> BareChar(w[i])
    requires rest == [] || !BareChar(rest[0])
    ensures NextEntry(pre + n + "=" + w + rest) == Some(Entry(n, Some(w), rest))
  {
    var u := "=" + w + rest;
    assert pre + n + "=" + w + rest == pre + n + u;
    assert u[1] == w[0];
    NameThenValue(pre, n, u);
    EqualsThenValue(n, u);
    BareValue(n, w, rest);
  }

  lemma BareValue(n: string, w: string, rest: string)
    requires w != [] && w[0] != '"' && forall i :: 0 <= i < |w| ==> BareChar(w[i])
    requires rest == [] || !BareChar(rest[0])
    ensures ValueFrom(n, "=" + w + rest, 1) == Entry(n, Some(w), rest)
  {
    hide QuotedEnd, Unescape;
    var u := "=" + w + rest;
    assert forall k :: 1 <= k < 1 + |w| ==> u[k] == w[k - 1];
    assert rest != [] ==> u[1 + |w|] == rest[0];
    BareEndAt(u, 1, 1 + |w|);
    assert u[1..1 + |w|] == w && u[1 + |w|..] == rest;
    assert RStrip(w) == w;
  }

  /** LStrip seen through SpaceEnd: stripping the leading space is skipping it. */
  lemma {:induction false} LStripAt(s: string, i: nat)
    requires i <= |s|
    ensures LStrip(s[i..]) == s[SpaceEnd(s, i)..]
    decreases |s| - i
  {
    if i < |s| && IsSpace(s[i]) {
      assert s[i..][1..] == s[i + 1..];
      LStripAt(s, i + 1);
    }
  }

  /** A name with no '=' after it (past any space) is a lone token: it maps to None and the rest is left. */
  lemma NextLone(pre: string, n: string, rest: string)
    requires AllSpace(pre) && ValidName(n)
    requires rest == [] || !TokenChar(rest[0])
    requires LStrip(rest) == [] || LStrip(rest)[0] != '='
    ensures NextEntry(pre + n + rest) == Some(Entry(n, None, rest))
  {
    NameThenValue(pre, n, rest);
    LStripAt(rest, 0);
  }

  /** Text whose first non-space character cannot start a name makes the parser raise AssertionError. */
  lemma NoLeadingName(t: string, acc: RetDict)
    requires t != []
    requires LStrip(t) == [] || !TokenChar(LStrip(t)[0])
    ensures ParseFrom(t, acc) == Err(Raise(AssertionError))
  {
    LStripAt(t, 0);
    var a := SpaceEnd(t, 0);
    assert a < |t| ==> t[a] == LStrip(t)[0];
    assert NextEntry(t).None?;
  }

  /** Name and value pairs written as name="escaped value"; entries of a reply. */
  function QuotedAll(es: seq<(string, string)>): (r: seq<string>)
    ensures |r| == |es|
    ensures forall i :: 0 <= i < |es| ==> r[i] == Quoted(es[i].0, es[i].1)
  {
    seq(|es|, i requires 0 <= i < |es| => Quoted(es[i].0, es[i].1))
  }

  /** The dictionary after storing each pair in turn: a later value for a name replaces an earlier one. */
  function Collect(es: seq<(string, string)>, acc: RetDict): RetDict
  {
    if es == [] then acc else Collect(es[1..], acc[es[0].0 := Some(es[0].1)])
  }

  lemma {:induction false} ParseQuotedFrom(pre: string, es: seq<(string, string)>, acc: RetDict)
    requires AllSpace(pre) && es != []
    requires forall i :: 0 <= i < |es| ==> ValidName(es[i].0)
    ensures ParseFrom(pre + JoinSpace(QuotedAll(es)), acc) == Ok(Collect(es, acc))
    decreases |es|
  {
    hide NextEntry, Quoted, Escape, ValueAfter, ValueFrom;
    var rest := if |es| == 1 then "" else " " + JoinSpace(QuotedAll(es[1..]));
    assert QuotedAll(es)[1..] == QuotedAll(es[1..]);
    assert JoinSpace(QuotedAll(es)) == Quoted(es[0].0, es[0].1) + rest;
    NextQuoted(pre, es[0].0, es[0].1, rest);
    var t := pre + JoinSpace(QuotedAll(es));
    assert t == pre + Quoted(es[0].0, es[0].1) + rest;
    var acc' := acc[es[0].0 := Some(es[0].1)];
    assert ParseFrom(t, acc) == ParseFrom(rest, acc');
    if |es| > 1 {
      assert AllSpace(" ");
      ParseQuotedFrom(" ", es[1..], acc');
    }
  }

  /**
   * Return values written as name="value" (quotes and backslashes escaped)
   * and separated by spaces parse back to exactly those names and values.
   */
  lemma ParseQuotedReply(es: seq<(string, string)>)
    requires forall i :: 0 <= i < |es| ==> ValidName(es[i].0)
    ensures ParseFrom(JoinSpace(QuotedAll(es)), map[]) == Ok(Collect(es, map[]))
  {
    if es != [] {
      ParseQuotedFrom("", es, map[]);
      assert "" + JoinSpace(QuotedAll(es)) == JoinSpace(QuotedAll(es));
    }
  }

  /** Text without quotes or backslashes needs no escaping. */
  lemma {:induction false} EscapePlain(s: string)
    requires '"' !in s && '\\' !in s
    ensures Escape(s) == s
  {
    if s != [] {
      EscapePlain(s[1..]);
      assert s == [s[0]] + s[1..];
    }
  }

  /**
   * A str parameter as _send_command writes it, name="value", is read back by
   * the reply parser as that name bound to that value, when the value holds
   * no quote or backslash.
   */
  lemma StrParamReadBack(n: string, v: string)
    requires ValidName(n) && '"' !in v && '\\' !in v
    ensures ParseFrom(ParamText((n, StrArg(v))), map[]) == Ok(map[n := Some(v)])
  {
    EscapePlain(v);
    assert ParamText((n, StrArg(v))) == Quoted(n, v);
    var es := [(n, v)];
    assert JoinSpace(QuotedAll(es)) == Quoted(n, v);
    ParseQuotedReply(es);
    assert es[1..] == [];
  }

  /** A stored pair is found in the collected dictionary unless a later pair reuses its name. */
  lemma {:induction false} CollectFinds(es: seq<(string, string)>, acc: RetDict, i: nat)
    requires i < |es|
    requires forall j :: i < j < |es| ==> es[j].0 != es[i].0
    ensures es[i].0 in Collect(es, acc) && Collect(es, acc)[es[i].0] == Some(es[i].1)
    decreases |es|
  {
    if i > 0 {
      CollectFinds(es[1..], acc[es[0].0 := Some(es[0].1)], i - 1);
    } else {
      CollectKeeps(es[1..], acc[es[0].0 := Some(es[0].1)], es[0].0);
    }
  }

  lemma {:induction false} CollectKeeps(es: seq<(string, string)>, acc: RetDict, name: string)
    requires name in acc
    requires forall j :: 0 <= j < |es| ==> es[j].0 != name
    ensures name in Collect(es, acc) && Collect(es, acc)[name] == acc[name]
    decreases |es|
  {
    if es != [] {
      CollectKeeps(es[1..], acc[es[0].0 := Some(es[0].1)], name);
    }
  }

  // ---------------------------------------------------------------------
  // Replies

  /** errors_dict: the device error codes that raise an exception class of their own. */
  const ErrorsDict: map<int, ExcClass> := map[
    7003 := OutofPaperError, 7004 := OutofPaperError,
    8007 := CouponTotalizeError, 8011 := PaymentAdditionError,
    8013 := CouponTotalizeError, 8014 := PaymentAdditionError,
    8017 := CloseCouponError, 8044 := CancelItemError,
    8045 := CancelItemError, 8068 := PaymentAdditionError,
    8086 := CancelItemError, 15009 := PendingReduceZ,
    11002 := CommandParametersError, 11006 := CommandError,
    11007 := InvalidState, 15007 := PendingReadX,
    15008 := ReadXError, 15011 := OutofPaperError]

  /** The exception a non-zero code raises: its errors_dict class, else DriverError, carrying the code. */
  function CodeError(code: int): Exception
  {
    RaiseCode(if code in ErrorsDict then ErrorsDict[code] else DriverError, code)
  }

  /** The reply half of _send_command, on the line read back (its closing '}' already consumed). */
  function ReplyOutcome(reply: string): Result<RetDict>
  {
    if reply == [] then Err(Raise(IndexError))
    else if reply[0] != '{' then Err(Raise(AssertionError))
    else
      var sections := Split(reply[1..], ';');
      if |sections| != 4 then Err(Raise(AssertionError))
      else match ParseFrom(sections[2], map[])
        case Err(e) => Err(e)
        case Ok(d) =>
          match ParseInt(sections[1])
          case None => Err(Raise(ValueError))
          case Some(code) =>
            if code == 0 then Ok(d)
            else if "Circunstancia" !in d then Err(Raise(KeyError))
            else Err(CodeError(code))
  }

  lemma NoSemicolonInNumber(n: int)
    ensures ';' !in IntToString(n)
  {
    var digits := NatToString(if n < 0 then -n else n);
    assert forall i :: 0 <= i < |digits| ==> digits[i] != ';';
    assert IntToString(n) == if n < 0 then "-" + digits else digits;
  }

  /**
   * A reply `{id;code;values;tail}` gives the parsed values when the code is
   * 0; any other code raises the errors_dict class for it (DriverError when
   * unmapped) carrying the code, or KeyError when the values hold no
   * Circunstancia; values that do not parse raise first.
   */
  lemma ReplyParts(id: string, code: int, values: string, tail: string)
    requires ';' !in id && ';' !in values && ';' !in tail
    ensures var reply := "{" + id + ";" + IntToString(code) + ";" + values + ";" + tail;
      && (ParseFrom(values, map[]).Err? ==> ReplyOutcome(reply) == ParseFrom(values, map[]))
      && (ParseFrom(values, map[]).Ok? && code == 0 ==> ReplyOutcome(reply) == ParseFrom(values, map[]))
      && (ParseFrom(values, map[]).Ok? && code != 0 && "Circunstancia" in ParseFrom(values, map[]).value ==>
            ReplyOutcome(reply) == Err(RaiseCode(if code in ErrorsDict then ErrorsDict[code] else DriverError, code)))
      && (ParseFrom(values, map[]).Ok? && code != 0 && "Circunstancia" !in ParseFrom(values, map[]).value ==>
            ReplyOutcome(reply) == Err(Raise(KeyError)))
  {
    hide ParseFrom, ParseInt, IntToString, Split;
    NoSemicolonInNumber(code);
    FourSections(id, IntToString(code), values, tail);
    ParseIntToString(code);
  }

  /** Three ';' between four pieces without one split back into those pieces. */
  lemma FourSections(a: string, b: string, c: string, d: string)
    requires ';' !in a && ';' !in b && ';' !in c && ';' !in d
    ensures ("{" + a + ";" + b + ";" + c + ";" + d)[1..] == a + [';'] + (b + [';'] + (c + [';'] + d))
    ensures Split(("{" + a + ";" + b + ";" + c + ";" + d)[1..], ';') == [a, b, c, d]
  {
    assert ("{" + a + ";" + b + ";" + c + ";" + d)[1..] == a + [';'] + (b + [';'] + (c + [';'] + d));
    SplitAt(a, b + [';'] + (c + [';'] + d), ';');
    SplitAt(b, c + [';'] + d, ';');
    SplitAt(c, d, ';');
    SplitNone(d, ';');
  }

  /** An empty reply is an IndexError; one not opening with '{', or without exactly three ';', an AssertionError. */
  lemma MalformedReply(reply: string)
    ensures reply == [] ==> ReplyOutcome(reply) == Err(Raise(IndexError))
    ensures reply != [] && (reply[0] != '{' || multiset(reply[1..])[';'] != 3) ==>
      ReplyOutcome(reply) == Err(Raise(AssertionError))
  {
    if reply != [] {
      SplitCount(reply[1..], ';');
    }
  }

  // ---------------------------------------------------------------------
  // One command on the port

  /**
   * writeline of one command line, then the reply handling, on the replies
   * p still to come: a line with a character above 255 is refused before
   * anything is sent.
   */
  function Exchange(p: seq<Reply>, line: string): Step<RetDict>
  {
    if !IsByteString(Frame(line)) then Step(Err(Raise(ValueError)), p, [])
    else
      var read := ReadLineFrom(p, 0, "", '}');
      Step(if read.0.Err? then Err(read.0.error) else ReplyOutcome(read.0.value), read.1, Str2Bytes(Frame(line)).value)
  }

  /** The type a register is read as. */
  datatype RegType = IntReg | DecimalReg | DateReg | StrReg | BoolReg

  /** A converted register; Today is the clock's date, given for the never-set date #00/00/0000#. */
  datatype RegValue =
    | IntValue(n: int)
    | DecimalValue(x: real)
    | DateValue(d: Date)
    | Today
    | StrValue(s: string)
    | BoolValue(b: bool)

  predicate OfType(t: RegType, v: RegValue)
  {
    match t
    case IntReg => v.IntValue?
    case DecimalReg => v.DecimalValue?
    case DateReg => v.DateValue? || v.Today?
    case StrReg => v.StrValue?
    case BoolReg => v.BoolValue?
  }

  /** The command, the argument name and the returned name _read_register uses for each type. */
  function RegisterCommand(t: RegType): (string, string, string)
  {
    match t
    case IntReg => ("LeInteiro", "NomeInteiro", "ValorInteiro")
    case DecimalReg => ("LeMoeda", "NomeDadoMonetario", "ValorMoeda")
    case DateReg => ("LeData", "NomeData", "ValorData")
    case StrReg => ("LeTexto", "NomeTexto", "ValorTexto")
    case BoolReg => ("LeIndicador", "NomeIndicador", "ValorNumericoIndicador")
  }

  /** The command line that reads register `name`. */
  function RegisterLine(name: string, t: RegType): string
  {
    CommandLine(0, RegisterCommand(t).0, [(RegisterCommand(t).1, StrArg(name))])
  }

  /** int(retval); int(None) is a TypeError. */
  function ConvertInt(retval: Option<string>): Result<int>
  {
    if retval.None? then Err(Raise(TypeError))
    else match ParseInt(retval.value)
      case None => Err(Raise(ValueError))
      case Some(n) => Ok(n)
  }

  /** The Decimal branch: '.' removed, ',' made the point, then Decimal(); None has no replace (AttributeError). */
  function ConvertDecimal(retval: Option<string>): Result<real>
  {
    if retval.None? then Err(Raise(AttributeError))
    else match ParseDecimal(ReplaceChar(RemoveChar(retval.value, '.'), ',', '.'))
      case None => Err(Raise(InvalidOperation))
      case Some(x) => Ok(x)
  }

  /** list(map(int, parts)): every part as an int, or the ValueError of the first that is not one. */
  function ParseInts(parts: seq<string>): (r: Option<seq<int>>)
    ensures r.Some? ==> |r.value| == |parts|
  {
    if parts == [] then Some([])
    else match (ParseInt(parts[0]), ParseInts(parts[1..]))
      case (Some(n), Some(ns)) => Some([n] + ns)
      case _ => None
  }

  /** The conversion succeeds exactly when every field is an int, and then gives each field's value in order. */
  lemma {:induction false} ParseIntsEach(parts: seq<string>)
    ensures ParseInts(parts).Some? <==> forall i :: 0 <= i < |parts| ==> ParseInt(parts[i]).Some?
    ensures ParseInts(parts).Some? ==> forall i :: 0 <= i < |parts| ==> ParseInt(parts[i]) == Some(ParseInts(parts).value[i])
  {
    hide ParseInt;
    if parts != [] {
      var rest := parts[1..];
      ParseIntsEach(rest);
      var head, tail := ParseInt(parts[0]), ParseInts(rest);
      assert ParseInts(parts) == if head.Some? && tail.Some? then Some([head.value] + tail.value) else None;
      if forall i :: 0 <= i < |parts| ==> ParseInt(parts[i]).Some? {
        forall j | 0 <= j < |rest|
          ensures ParseInt(rest[j]).Some?
        {
          assert rest[j] == parts[j + 1];
        }
        var all := [head.value] + tail.value;
        forall i | 0 <= i < |parts|
          ensures ParseInt(parts[i]) == Some(all[i])
        {
          if i > 0 {
            assert parts[i] == rest[i - 1];
          }
        }
      } else {
        var i :| 0 <= i < |parts| && ParseInt(parts[i]).None?;
        if i > 0 {
          assert rest[i - 1] == parts[i];
        }
      }
    }
  }

  /** The date the printer reports before any reduction. */
  const NoDate := "#00/00/0000#"

  /** The date branch: #00/00/0000# is today; otherwise '#d/m/y#' gives date(y, m, d), a ValueError when invalid. */
  function ConvertDate(retval: Option<string>): Result<RegValue>
  {
    if retval.None? then Err(Raise(TypeError))
    else if retval.value == NoDate then Ok(Today)
    else
      var s := retval.value;
      match ParseInts(Split(if |s| >= 2 then s[1..|s| - 1] else [], '/'))
      case None => Err(Raise(ValueError))
      case Some(ns) =>
        if |ns| != 3 then Err(Raise(ValueError))
        else if ValidDate(Date(ns[2], ns[1], ns[0])) then Ok(DateValue(Date(ns[2], ns[1], ns[0])))
        else Err(Raise(ValueError))
  }

  /** The converted register value, by type. */
  function ConvertRegister(t: RegType, retval: Option<string>): (r: Result<RegValue>)
    ensures r.Ok? ==> OfType(t, r.value)
  {
    match t
    case IntReg => (match ConvertInt(retval) case Ok(n) => Ok(IntValue(n)) case Err(e) => Err(e))
    case DecimalReg => (match ConvertDecimal(retval) case Ok(x) => Ok(DecimalValue(x)) case Err(e) => Err(e))
    case DateReg => ConvertDate(retval)
    case StrReg => if retval.None? then Err(Raise(AttributeError)) else Ok(StrValue(StripChar(retval.value, '"')))
    case BoolReg => (match ConvertInt(retval) case Ok(n) => Ok(BoolValue(n != 0)) case Err(e) => Err(e))
  }

  /** _read_register(name, type) on the replies p: send the Le* command, find the returned name, convert. */
  function RegisterOutcome(p: seq<Reply>, name: string, t: RegType): (r: Step<RegValue>)
    ensures r.result.Ok? ==> OfType(t, r.result.value)
  {
    var x := Exchange(p, RegisterLine(name, t));
    var retname := RegisterCommand(t).2;
    Step(if x.result.Err? then Err(x.result.error)
         else if retname !in x.result.value then Err(Raise(AssertionError))
         else ConvertRegister(t, x.result.value[retname]),
         x.left, x.sent)
  }

  // ---------------------------------------------------------------------
  // Coupon operations

  /** FiscNetConstants: the device codes of the units (CUSTOM takes the caller's description instead). */
  const FiscNetUnits: Constants<Fiscal.UnitType, string> :=
    Constants([(Fiscal.Weight, "km"), (Fiscal.Liters, "lt"), (Fiscal.Meters, "m "), (Fiscal.EmptyUnit, "  ")])

  /** status & FLAG_DOCUMENTO_ABERTO: bit 10 (1024) of the Indicadores register. */
  predicate DocumentOpen(status: int)
  {
    (status / 1024) % 2 == 1
  }

  /** The command line of AbreCupomFiscal, with the customer fields cut to 80, 29 and 30 characters. */
  function OpenLine(name: string, document: string, address: string): string
  {
    CommandLine(0, "AbreCupomFiscal", [
      ("EnderecoConsumidor", StrArg(Slice(address, 0, 80))),
      ("IdConsumidor", StrArg(Slice(document, 0, 29))),
      ("NomeConsumidor", StrArg(Slice(name, 0, 30)))])
  }

  /** coupon_open on the replies p: read the status, refuse an open document, else open one. */
  function CouponOpenOutcome(p: seq<Reply>, name: string, document: string, address: string): Step<Unit>
  {
    var status := RegisterOutcome(p, "Indicadores", IntReg);
    if status.result.Err? then Step(Err(status.result.error), status.left, status.sent)
    else if DocumentOpen(status.result.value.n) then Step(Err(Raise(CouponOpenError)), status.left, status.sent)
    else
      var opening := Exchange(status.left, OpenLine(name, document, address));
      Step(if opening.result.Err? then Err(opening.result.error) else Ok(Unit), opening.left, status.sent + opening.sent)
  }

  /** The command line of VendeItem; code and description cut to 48 and 200 characters. */
  function SellLine(item: ItemArgs, tax: int, unitText: string): string
  {
    CommandLine(0, "VendeItem", [
      ("CodAliquota", IntArg(tax)),
      ("CodProduto", StrArg(Slice(item.code, 0, 48))),
      ("NomeProduto", StrArg(Slice(item.description, 0, 200))),
      ("Unidade", StrArg(unitText)),
      ("PrecoUnitario", DecimalArg(item.price)),
      ("Quantidade", DecimalArg(item.quantity))])
  }

  /** The command line of AcresceItemFiscal that takes a discount off the last item. */
  function DiscountLine(discount: real): string
  {
    CommandLine(0, "AcresceItemFiscal", [("Cancelar", BoolArg(false)), ("ValorAcrescimo", DecimalArg(-discount))])
  }

  /**
   * coupon_add_item on the replies p: the status must show an open document;
   * then the unit and the tax code are converted, the item is sold, a
   * non-zero discount is applied to it (a surcharge is ignored), and the id
   * of the last item sold is read back.
   */
  function AddItemOutcome(p: seq<Reply>, consts: Constants<Fiscal.UnitType, string>, item: ItemArgs): Step<int>
  {
    var status := RegisterOutcome(p, "Indicadores", IntReg);
    if status.result.Err? then Step(Err(status.result.error), status.left, status.sent)
    else if !DocumentOpen(status.result.value.n) then Step(Err(Raise(CouponNotOpenError)), status.left, status.sent)
    else
      var sold := SellOutcome(status.left, consts, item);
      Step(sold.result, sold.left, status.sent + sold.sent)
  }

  /** The part of coupon_add_item after the open-coupon check: unit, tax code, the sale, the discount, the item id. */
  function SellOutcome(p: seq<Reply>, consts: Constants<Fiscal.UnitType, string>, item: ItemArgs): Step<int>
  {
    var unitText := UnitText(consts, item.unit, item.unitDesc);
    if unitText.Err? then Step(Err(unitText.error), p, [])
    else match ParseInt(item.taxcode)
      case None => Step(Err(Raise(ValueError)), p, [])
      case Some(tax) =>
        var sold := Exchange(p, SellLine(item, tax, unitText.value));
        if sold.result.Err? then Step(Err(sold.result.error), sold.left, sold.sent)
        else
          var adjusted := DiscountOutcome(sold.left, item.discount);
          Step(adjusted.result, adjusted.left, sold.sent + adjusted.sent)
  }

  /** The AcresceItemFiscal command when there is a discount, then the id of the last item sold. */
  function DiscountOutcome(p: seq<Reply>, discount: real): Step<int>
  {
    var adjusted := if discount != 0.0 then Exchange(p, DiscountLine(discount)) else Step(Ok(map[]), p, []);
    if adjusted.result.Err? then Step(Err(adjusted.result.error), adjusted.left, adjusted.sent)
    else
      var id := RegisterOutcome(adjusted.left, "ContadorDocUltimoItemVendido", IntReg);
      Step(if id.result.Err? then Err(id.result.error) else Ok(id.result.value.n),
           id.left, adjusted.sent + id.sent)
  }

  /** _get_coupon_remainder_value on the replies p: total less paid, never below zero. */
  function RemainderOutcome(p: seq<Reply>): Step<real>
  {
    var paid := RegisterOutcome(p, "TotalDocValorPago", DecimalReg);
    if paid.result.Err? then Step(Err(paid.result.error), paid.left, paid.sent)
    else
      var total := RegisterOutcome(paid.left, "TotalDocLiquido", DecimalReg);
      if total.result.Err? then Step(Err(total.result.error), total.left, paid.sent + total.sent)
      else
        var result := total.result.value.x - paid.result.value.x;
        Step(Ok(if result < 0.0 then 0.0 else result), total.left, paid.sent + total.sent)
  }

  class FiscNetECF {
    const serial: SerialBase
    const commandId: int
    const consts: Constants<Fiscal.UnitType, string>
    var customerName: string
    var customerDocument: string
    var customerAddress: string

    /** The framing ('{' before, '}' after and ending the reply) and the command id, fixed at 0. */
    predicate Valid()
    {
      serial.prefix == "{" && serial.suffix == "}" && serial.eol == '}' && commandId == 0
    }

    /** FiscNetECF(port, consts): the FiscNet framing on the port; consts default to FiscNetConstants. */
    constructor(port: Port, consts: Option<Constants<Fiscal.UnitType, string>>)
      ensures Valid() && serial.port == port
      ensures this.consts == if consts.Some? then consts.value else FiscNetUnits
      ensures customerName == "" && customerDocument == "" && customerAddress == ""
    {
      serial := new SerialBase(port, "{", "}", '}');
      commandId := 0;
      this.consts := if consts.Some? then consts.value else FiscNetUnits;
      customerName, customerDocument, customerAddress := "", "", "";
    }

    /** _send_command: the sorted name=value list built argument by argument, writeline, then the reply. */
    method SendCommand(command: string, ps: seq<Param>) returns (r: Result<RetDict>)
      requires Valid()
      modifies serial.port
      ensures var x := Exchange(old(serial.port.pending), CommandLine(0, command, ps));
        r == x.result && serial.port.pending == x.left && serial.port.written == old(serial.port.written) + x.sent
    {
      hide ParseFrom, NextEntry, Split, ParseInt, ReadLineFrom, SortParams, ParamText, JoinSpace, IntToString, Str2Bytes, IsByteString;
      var sorted := SortParams(ps);
      var parameters: seq<string> := [];
      var i := 0;
      while i < |sorted|
        invariant 0 <= i <= |sorted|
        invariant |parameters| == i
        invariant forall k :: 0 <= k < i ==> parameters[k] == ParamText(sorted[k])
      {
        parameters := parameters + [ParamText(sorted[i])];
        i := i + 1;
      }
      assert parameters == ParamTexts(sorted);
      var line := IntToString(commandId) + ";" + command + ";" + JoinSpace(parameters) + ";";
      assert Frame(line) == serial.prefix + line + serial.suffix;
      var reply := serial.WriteLine(line);
      if reply.Err? {
        return Err(reply.error);
      }
      var text := reply.value;
      if |text| == 0 {
        return Err(Raise(IndexError));
      }
      if text[0] != '{' {
        return Err(Raise(AssertionError));
      }
      var sections := Split(text[1..], ';');
      if |sections| != 4 {
        return Err(Raise(AssertionError));
      }
      var retdict := ParseReturnValue(sections[2]);
      if retdict.Err? {
        return retdict;
      }
      var errorcode := ParseInt(sections[1]);
      if errorcode.None? {
        return Err(Raise(ValueError));
      }
      if errorcode.value != 0 {
        if "Circunstancia" !in retdict.value {
          return Err(Raise(KeyError));
        }
        return Err(CodeError(errorcode.value));
      }
      r := retdict;
    }

    /** _read_register: the Le* command for the type, the returned name asserted present, the value converted. */
    method ReadRegister(name: string, t: RegType) returns (r: Result<RegValue>)
      requires Valid()
      modifies serial.port
      ensures var x := RegisterOutcome(old(serial.port.pending), name, t);
        r == x.result && serial.port.pending == x.left && serial.port.written == old(serial.port.written) + x.sent
    {
      hide Exchange, CommandLine, ConvertRegister;
      var command := RegisterCommand(t);
      var retdict := SendCommand(command.0, [(command.1, StrArg(name))]);
      if retdict.Err? {
        return Err(retdict.error);
      }
      if command.2 !in retdict.value {
        return Err(Raise(AssertionError));
      }
      r := ConvertRegister(t, retdict.value[command.2]);
    }

    /** coupon_identify_customer: the customer is kept for the next coupon_open; nothing is sent. */
    method CouponIdentifyCustomer(customer: string, address: string, document: string)
      modifies this
      ensures customerName == customer && customerAddress == address && customerDocument == document
    {
      customerName, customerDocument, customerAddress := customer, document, address;
    }

    /** has_open_coupon: the DocumentoAberto indicator, read as a bool. */
    method HasOpenCoupon() returns (r: Result<bool>)
      requires Valid()
      modifies serial.port
      ensures var x := RegisterOutcome(old(serial.port.pending), "DocumentoAberto", BoolReg);
        r == (if x.result.Err? then Err(x.result.error) else Ok(x.result.value.b))
        && serial.port.pending == x.left && serial.port.written == old(serial.port.written) + x.sent
    {
      var open := ReadRegister("DocumentoAberto", BoolReg);
      r := if open.Err? then Err(open.error) else Ok(open.value.b);
    }

    /** coupon_open: refused with CouponOpenError while a document is open. */
    method CouponOpen() returns (r: Result<Unit>)
      requires Valid()
      modifies serial.port
      ensures var x := CouponOpenOutcome(old(serial.port.pending), customerName, customerDocument, customerAddress);
        r == x.result && serial.port.pending == x.left && serial.port.written == old(serial.port.written) + x.sent
    {
      hide Exchange, RegisterOutcome, CommandLine, Slice;
      var status := ReadRegister("Indicadores", IntReg);
      if status.Err? {
        return Err(status.error);
      }
      if DocumentOpen(status.value.n) {
        return Err(Raise(CouponOpenError));
      }
      var opening := SendCommand("AbreCupomFiscal", [
        ("EnderecoConsumidor", StrArg(Slice(customerAddress, 0, 80))),
        ("IdConsumidor", StrArg(Slice(customerDocument, 0, 29))),
        ("NomeConsumidor", StrArg(Slice(customerName, 0, 30)))]);
      r := if opening.Err? then Err(opening.error) else Ok(Unit);
    }

    /** coupon_add_item: refused with CouponNotOpenError unless a document is open; gives the new item's id. */
    method CouponAddItem(item: ItemArgs) returns (r: Result<int>)
      requires Valid()
      modifies serial.port
      ensures var x := AddItemOutcome(old(serial.port.pending), consts, item);
        r == x.result && serial.port.pending == x.left && serial.port.written == old(serial.port.written) + x.sent
    {
      hide Exchange, RegisterOutcome, CommandLine, Slice, UnitText, ParseInt;
      var status := ReadRegister("Indicadores", IntReg);
      if status.Err? {
        return Err(status.error);
      }
      if !DocumentOpen(status.value.n) {
        return Err(Raise(CouponNotOpenError));
      }
      var unitText := UnitText(consts, item.unit, item.unitDesc);
      if unitText.Err? {
        return Err(unitText.error);
      }
      var tax := ParseInt(item.taxcode);
      if tax.None? {
        return Err(Raise(ValueError));
      }
      var sold := SendCommand("VendeItem", [
        ("CodAliquota", IntArg(tax.value)),
        ("CodProduto", StrArg(Slice(item.code, 0, 48))),
        ("NomeProduto", StrArg(Slice(item.description, 0, 200))),
        ("Unidade", StrArg(unitText.value)),
        ("PrecoUnitario", DecimalArg(item.price)),
        ("Quantidade", DecimalArg(item.quantity))]);
      if sold.Err? {
        return Err(sold.error);
      }
      if item.discount != 0.0 {
        var adjusted := SendCommand("AcresceItemFiscal", [("Cancelar", BoolArg(false)), ("ValorAcrescimo", DecimalArg(-item.discount))]);
        if adjusted.Err? {
          return Err(adjusted.error);
        }
      }
      var id := ReadRegister("ContadorDocUltimoItemVendido", IntReg);
      r := if id.Err? then Err(id.error) else Ok(id.value.n);
    }

    /** _get_coupon_remainder_value: the amount still to pay on the open coupon. */
    method CouponRemainderValue() returns (r: Result<real>)
      requires Valid()
      modifies serial.port
      ensures var x := RemainderOutcome(old(serial.port.pending));
        r == x.result && serial.port.pending == x.left && serial.port.written == old(serial.port.written) + x.sent
    {
      hide Exchange, RegisterOutcome;
      var paid := ReadRegister("TotalDocValorPago", DecimalReg);
      if paid.Err? {
        return Err(paid.error);
      }
      var total := ReadRegister("TotalDocLiquido", DecimalReg);
      if total.Err? {
        return Err(total.error);
      }
      var result := total.value.x - paid.value.x;
      if result < 0.0 {
        result := 0.0;
      }
      r := Ok(result);
    }
  }

  // ---------------------------------------------------------------------
  // Properties of the conversions and the coupon operations

  /** The integer test equals the source's `status & FLAG_DOCUMENTO_ABERTO` on a 32-bit status word. */
  lemma DocumentOpenIsFlag(status: int)
    requires 0 <= status < 0x1_0000_0000
    ensures DocumentOpen(status) <==> (status as bv32) & 1024 != 0
  {
  }

  /** An int or bool register written by str() reads back as the number, or as its truth. */
  lemma IntRegisterReadBack(n: int)
    ensures ConvertRegister(IntReg, Some(IntToString(n))) == Ok(IntValue(n))
    ensures ConvertRegister(BoolReg, Some(IntToString(n))) == Ok(BoolValue(n != 0))
  {
    ParseIntToString(n);
  }

  /** A str register in double quotes reads back without them, when the text neither starts nor ends with one. */
  lemma StrRegisterReadBack(s: string)
    requires s == [] || (s[0] != '"' && s[|s| - 1] != '"')
    ensures ConvertRegister(StrReg, Some("\"" + s + "\"")) == Ok(StrValue(s))
  {
    var q := "\"" + s + "\"";
    assert q[1..] == s + "\"";
    assert (s + "\"")[..|s|] == s;
    if s != [] {
      assert (s + "\"")[0] == s[0];
      assert StripChar(q, '"') == StripChar(s + "\"", '"');
      assert StripChar(s + "\"", '"') == StripChar(s, '"');
    } else {
      assert StripChar(q, '"') == StripChar("\"", '"');
      assert StripChar("\"", '"') == StripChar([], '"');
    }
  }

  /** '/' between three pieces without one splits back into those pieces. */
  lemma ThreeFields(a: string, b: string, c: string)
    requires '/' !in a && '/' !in b && '/' !in c
    ensures Split(a + "/" + b + "/" + c, '/') == [a, b, c]
  {
    assert a + "/" + b + "/" + c == a + ['/'] + (b + ['/'] + c);
    SplitAt(a, b + ['/'] + c, '/');
    SplitAt(b, c, '/');
    SplitNone(c, '/');
  }

  /** '%0Nd' of a non-negative number: digits only, read back by int(). */
  lemma PaddedField(n: nat, w: nat)
    ensures AllDigits(FormatZeroPadded(n, w)) && '/' !in FormatZeroPadded(n, w)
    ensures ParseInt(FormatZeroPadded(n, w)) == Some(n)
  {
    var padded := ZeroPaddedDigits(n, w);
    ParseFormatZeroPadded(n, w);
  }

  /** The '#dd/mm/yyyy#' text of a date, as the printer reports dates. */
  function DateText(d: Date): string
  {
    "#" + FormatZeroPadded(d.day, 2) + "/" + FormatZeroPadded(d.month, 2) + "/" + FormatZeroPadded(d.year, 4) + "#"
  }

  /** A valid date written as #dd/mm/yyyy# is read back as that date, never as the unset date. */
  lemma DateRegisterReadBack(d: Date)
    requires ValidDate(d)
    ensures ConvertRegister(DateReg, Some(DateText(d))) == Ok(DateValue(d))
  {
    hide ParseInt, FormatZeroPadded, Split;
    var D, M, Y := FormatZeroPadded(d.day, 2), FormatZeroPadded(d.month, 2), FormatZeroPadded(d.year, 4);
    PaddedField(d.day, 2);
    PaddedField(d.month, 2);
    PaddedField(d.year, 4);
    var s := DateText(d);
    assert s[1..|s| - 1] == D + "/" + M + "/" + Y;
    ThreeFields(D, M, Y);
    ThreeFields("00", "00", "0000");
    assert NoDate[1..|NoDate| - 1] == "00" + "/" + "00" + "/" + "0000";
    ZeroField();
    assert D != "00";
    assert s != NoDate;
    ParseThree(D, M, Y, d.day, d.month, d.year);
  }

  /** A date argument is written '#dd/mm/yy#': ten characters whose fields read back as the day, the month and the year modulo 100. */
  lemma DateArgFields(d: Date)
    requires 1 <= d.day <= 31 && 1 <= d.month <= 12
    ensures var s := FormatDate(d);
      |s| == 10 && s[0] == '#' && s[9] == '#' &&
      ParseInts(Split(s[1..9], '/')) == Some([d.day, d.month, d.year % 100])
  {
    var D, M, Y := FormatZeroPadded(d.day, 2), FormatZeroPadded(d.month, 2), FormatZeroPadded(d.year % 100, 2);
    TwoDigits(d.day);
    TwoDigits(d.month);
    TwoDigits(d.year % 100);
    PaddedField(d.day, 2);
    PaddedField(d.month, 2);
    PaddedField(d.year % 100, 2);
    assert FormatDate(d) == "#" + D + "/" + M + "/" + Y + "#";
    hide FormatZeroPadded, FormatDate;
    DateFields(D, M, Y, d.day, d.month, d.year % 100);
  }

  /** Three two-character fields between '#' ... '#', separated by '/', read back field by field. */
  lemma DateFields(a: string, b: string, c: string, x: int, y: int, z: int)
    requires |a| == 2 && |b| == 2 && |c| == 2 && '/' !in a && '/' !in b && '/' !in c
    requires ParseInt(a) == Some(x) && ParseInt(b) == Some(y) && ParseInt(c) == Some(z)
    ensures var s := "#" + a + "/" + b + "/" + c + "#";
      |s| == 10 && s[0] == '#' && s[9] == '#' &&
      ParseInts(Split(s[1..9], '/')) == Some([x, y, z])
  {
    hide ParseInt, Split, ParseInts;
    var s := "#" + a + "/" + b + "/" + c + "#";
    ThreeFields(a, b, c);
    ParseThree(a, b, c, x, y, z);
    assert s[1..9] == a + "/" + b + "/" + c;
  }

  /** A number below 100 zero-padded to two places takes exactly two characters. */
  lemma TwoDigits(n: nat)
    requires n < 100
    ensures |FormatZeroPadded(n, 2)| == 2
  {
    assert Pow10(2) == 100;
    NatToStringLength(n, 2);
  }

  lemma ParseThree(a: string, b: string, c: string, x: int, y: int, z: int)
    requires ParseInt(a) == Some(x) && ParseInt(b) == Some(y) && ParseInt(c) == Some(z)
    ensures ParseInts([a, b, c]) == Some([x, y, z])
  {
    hide ParseInt;
    assert [c][1..] == [] && [c][0] == c;
    assert ParseInts([]) == Some([]);
    assert [z] + [] == [z];
    assert ParseInts([c]) == Some([z]);
    assert [b, c][1..] == [c] && [b, c][0] == b;
    assert [y] + [z] == [y, z];
    assert ParseInts([b, c]) == Some([y, z]);
    assert [a, b, c][1..] == [b, c] && [a, b, c][0] == a;
    assert [x] + [y, z] == [x, y, z];
  }

  lemma ZeroField()
    ensures ParseInt("00") == Some(0)
  {
    hide ParseInt, ParseNumeral, Strip, LStrip, RStrip;
    var t := "00";
    ParseDigits(t);
    assert t[..1] == "0" && t[..1][..0] == [];
    assert DigitsValue(t) == 0;
  }

  /** The text ('%.03f' % x).replace('.', ',') is made of. */
  lemma MoneyParts(x: real) returns (sign: string, whole: string, frac: string)
    ensures FormatMoney(x) == sign + whole + "," + frac
    ensures sign == if x < 0.0 then "-" else ""
    ensures whole != [] && AllDigits(whole) && DigitsValue(whole) == Thousandths(x) / 1000
    ensures |frac| == 3 && AllDigits(frac) && DigitsValue(frac) == Thousandths(x) % 1000
  {
    var k := Thousandths(x);
    sign := if x < 0.0 then "-" else "";
    whole := NatToString(k / 1000);
    DigitsValueOfNatToString(k / 1000);
    assert Pow10(3) == 1000;
    NatToStringLength(k % 1000, 3);
    frac := ZeroPaddedDigits(k % 1000, 3);
  }

  /** Decimal() of sign, digits, '.', three digits. */
  lemma ParseMoneyText(sign: string, whole: string, frac: string)
    requires sign == "-" || sign == ""
    requires whole != [] && AllDigits(whole) && |frac| == 3 && AllDigits(frac)
    ensures ParseDecimal(sign + whole + "." + frac) ==
      Some((if sign == "-" then -1.0 else 1.0) * PointValue(whole, frac))
  {
    hide PointValue, UnsignedDecimal, Strip;
    var g := sign + whole + "." + frac;
    assert g[0] == (if sign == "-" then '-' else whole[0]);
    assert g[|g| - 1] == frac[2];
    StripUnspaced(g);
    var body := whole + "." + frac;
    assert (if g[0] == '-' || g[0] == '+' then g[1..] else g) == body;
    UnsignedDecimalOf(whole, frac);
  }

  /**
   * A Decimal sent as ('%.03f' % x).replace('.', ',') and read back through
   * the Decimal branch of _read_register gives x rounded to thousandths.
   */
  lemma MoneyReadBack(x: real)
    ensures ConvertRegister(DecimalReg, Some(FormatMoney(x))) == Ok(DecimalValue(Milli(x)))
  {
    var sign, whole, frac := MoneyParts(x);
    MoneyTextNormalized(FormatMoney(x), sign, whole, frac);
    ParseMoneyText(sign, whole, frac);
    MoneyTextValue(x, sign, whole, frac);
    hide FormatMoney, DigitsValue, ParseDecimal, PointValue, ReplaceChar, RemoveChar, Milli, Thousandths;
  }

  /** With no '.' in it, the text's ',' becomes the point Decimal() reads. */
  lemma MoneyTextNormalized(f: string, sign: string, whole: string, frac: string)
    requires sign == "-" || sign == ""
    requires AllDigits(whole) && AllDigits(frac)
    requires f == sign + whole + "," + frac
    ensures ReplaceChar(RemoveChar(f, '.'), ',', '.') == sign + whole + "." + frac
  {
    hide ReplaceChar, RemoveChar;
    var g := sign + whole + "." + frac;
    var n := |sign| + |whole|;
    assert '.' !in f by {
      forall i | 0 <= i < |f|
        ensures f[i] != '.'
      {
        if i < |sign| {
          assert f[i] == sign[i];
        } else if i < n {
          assert f[i] == whole[i - |sign|];
        } else if i > n {
          assert f[i] == frac[i - n - 1];
        }
      }
    }
    RemoveAbsentChar(f, '.');
    var r := ReplaceChar(f, ',', '.');
    forall i | 0 <= i < |f|
      ensures r[i] == g[i]
    {
      if i < |sign| {
        assert f[i] == sign[i] == g[i];
      } else if i < n {
        assert f[i] == whole[i - |sign|] == g[i];
      } else if i > n {
        assert f[i] == frac[i - n - 1] == g[i];
      }
    }
  }

  /** The digits written before and after the comma value x rounded to thousandths. */
  lemma MoneyTextValue(x: real, sign: string, whole: string, frac: string)
    requires sign == if x < 0.0 then "-" else ""
    requires AllDigits(whole) && DigitsValue(whole) == Thousandths(x) / 1000
    requires |frac| == 3 && AllDigits(frac) && DigitsValue(frac) == Thousandths(x) % 1000
    ensures (if sign == "-" then -1.0 else 1.0) * PointValue(whole, frac) == Milli(x)
  {
    var k := Thousandths(x);
    assert Pow10(|frac|) == 1000;
    assert PointValue(whole, frac) == DigitsValue(whole) as real + DigitsValue(frac) as real / 1000.0;
    hide DigitsValue, Thousandths;
    assert DigitsValue(whole) as real + DigitsValue(frac) as real / 1000.0 == k as real / 1000.0;
  }

  /**
   * Dots are thousands separators and the comma the decimal point:
   * "a.b,c" is read as the number written ab.c.
   */
  lemma GroupedMoneyReadBack(a: string, b: string, c: string)
    requires a != [] && AllDigits(a) && AllDigits(b) && c != [] && AllDigits(c)
    ensures AllDigits(a + b)
    ensures ConvertRegister(DecimalReg, Some(a + "." + b + "," + c)) == Ok(DecimalValue(PointValue(a + b, c)))
    ensures PointValue(a + b, c) ==
      (DigitsValue(a) * Pow10(|b|) + DigitsValue(b)) as real + DigitsValue(c) as real / Pow10(|c|) as real
  {
    DigitsValueAppend(a, b);
    DropGroupDots(a, b, c);
    CommaToPoint(a + b, c);
    hide ParseDecimal, PointValue, RemoveChar, ReplaceChar;
    ParseDecimalPlain(a + b, c);
  }

  lemma DropGroupDots(a: string, b: string, c: string)
    requires AllDigits(a) && AllDigits(b) && AllDigits(c)
    ensures RemoveChar(a + "." + b + "," + c, '.') == a + b + "," + c
  {
    var rest := b + "," + c;
    assert '.' !in a && '.' !in rest;
    RemoveOneChar(a, rest, '.');
    assert a + "." + b + "," + c == a + "." + rest;
    assert a + rest == a + b + "," + c;
  }

  lemma RemoveOneChar(x: string, y: string, c: char)
    requires c !in x && c !in y
    ensures RemoveChar(x + [c] + y, c) == x + y
  {
    assert RemoveChar([c], c) == [];
    hide RemoveChar;
    RemoveCharAppend(x + [c], y, c);
    RemoveCharAppend(x, [c], c);
    RemoveAbsentChar(x, c);
    RemoveAbsentChar(y, c);
    assert x + [] == x;
  }

  lemma CommaToPoint(w: string, c: string)
    requires AllDigits(w) && AllDigits(c)
    ensures ReplaceChar(w + "," + c, ',', '.') == w + "." + c
  {
    var t := w + "," + c;
    var u := w + "." + c;
    var r := ReplaceChar(t, ',', '.');
    forall i | 0 <= i < |t|
      ensures r[i] == u[i]
    {
      if i < |w| {
        assert t[i] == w[i] == u[i];
      } else if i > |w| {
        assert t[i] == c[i - |w| - 1] == u[i];
      }
    }
  }

  /** The remainder is never negative: what is still to pay, or zero once paid in full or more. */
  lemma RemainderClamped(p: seq<Reply>)
    ensures var x := RemainderOutcome(p);
      x.result.Ok? ==> x.result.value >= 0.0
    ensures var paid := RegisterOutcome(p, "TotalDocValorPago", DecimalReg);
      var total := RegisterOutcome(paid.left, "TotalDocLiquido", DecimalReg);
      paid.result.Ok? && total.result.Ok? ==>
        RemainderOutcome(p).result ==
          Ok(if total.result.value.x >= paid.result.value.x then total.result.value.x - paid.result.value.x else 0.0)
  {
  }

  /** Each unit but CUSTOM has a two-character code in FiscNetConstants. */
  lemma DefaultUnits(unit: Fiscal.UnitType, unitDesc: string)
    requires unit != Fiscal.CustomUnit
    ensures UnitText(FiscNetUnits, unit, unitDesc).Ok?
    ensures |UnitText(FiscNetUnits, unit, unitDesc).value| == 2
  {
    var c := FiscNetUnits;
    assert GetItems(c) == [Fiscal.Weight, Fiscal.Liters, Fiscal.Meters, Fiscal.EmptyUnit];
    assert unit in GetItems(c);
    var v := UnitText(c, unit, unitDesc).value;
    var i :| 0 <= i < |c.entries| && c.entries[i] == (unit, v);
  }

  /** coupon_open with a document already open: CouponOpenError, and nothing sent after the status query. */
  lemma OpenRefusedWhileOpen(p: seq<Reply>, name: string, document: string, address: string)
    requires RegisterOutcome(p, "Indicadores", IntReg).result.Ok?
    requires DocumentOpen(RegisterOutcome(p, "Indicadores", IntReg).result.value.n)
    ensures CouponOpenOutcome(p, name, document, address) ==
      Step(Err(Raise(CouponOpenError)), RegisterOutcome(p, "Indicadores", IntReg).left,
           RegisterOutcome(p, "Indicadores", IntReg).sent)
  {
  }

  /** coupon_add_item with no document open: CouponNotOpenError, and nothing sent after the status query. */
  lemma AddItemRefusedWhenClosed(p: seq<Reply>, consts: Constants<Fiscal.UnitType, string>, item: ItemArgs)
    requires RegisterOutcome(p, "Indicadores", IntReg).result.Ok?
    requires !DocumentOpen(RegisterOutcome(p, "Indicadores", IntReg).result.value.n)
    ensures AddItemOutcome(p, consts, item) ==
      Step(Err(Raise(CouponNotOpenError)), RegisterOutcome(p, "Indicadores", IntReg).left,
           RegisterOutcome(p, "Indicadores", IntReg).sent)
  {
  }
}
