/** The chunked transfer coding on values: size lines in hexadecimal, what the
    writer emits, and how the reader takes it apart again. */
module Chunked {

  // ---- hexadecimal sizes ----

  function HexDigit(d: nat): char
    requires d < 16
  {
    "0123456789abcdef"[d]
  }

  function Hex(n: nat): (s: string)
    ensures s != ""
  {
    if n < 16 then [HexDigit(n)] else Hex(n / 16) + [HexDigit(n % 16)]
  }

  predicate IsHex(c: char) {
    '0' <= c <= '9' || 'a' <= c <= 'f' || 'A' <= c <= 'F'
  }

  function Digit(c: char): (d: nat)
    requires IsHex(c)
    ensures d < 16
  {
    if c <= '9' then c as int - '0' as int
    else if c <= 'F' then c as int - 'A' as int + 10
    else c as int - 'a' as int + 10
  }

  /** The longest prefix of hexadecimal digits. */
  function Digits(s: string): (r: string)
    ensures forall c :: c in r ==> IsHex(c)
  {
    if s != "" && IsHex(s[0]) then [s[0]] + Digits(s[1..]) else ""
  }

  function Value(s: string): nat
    requires forall c :: c in s ==> IsHex(c)
  {
    if s == "" then 0 else Value(s[..|s| - 1]) * 16 + Digit(s[|s| - 1])
  }

  predicate IsSpace(c: char) {
    c == ' ' || '\t' as int <= c as int <= '\r' as int
  }

  function SkipSpace(s: string): string {
    if s != "" && IsSpace(s[0]) then SkipSpace(s[1..]) else s
  }

  function WithoutSign(t: string): string {
    if t != "" && (t[0] == '+' || t[0] == '-') then t[1..] else t
  }

  /** Less a 0x in front of a digit. */
  function WithoutPrefix(u: string): string {
    if |u| > 2 && u[0] == '0' && (u[1] == 'x' || u[1] == 'X') && IsHex(u[2]) then u[2..] else u
  }

  datatype Number = NoDigits | Number(value: nat)

  /** The C library's conversion in base 16: white space, a sign, an optional 0x,
      digits; saturating, and a minus sign negates modulo ulongMax + 1.  A NUL
      byte ends the text, as any other byte that is no digit does. */
  function StrToUl(s: string, ulongMax: nat): Number {
    var t := SkipSpace(s);
    var ds := Digits(WithoutPrefix(WithoutSign(t)));
    var x := Value(ds);
    if ds == "" then NoDigits
    else if x > ulongMax then Number(ulongMax)
    else if t[0] == '-' && x > 0 then Number(ulongMax + 1 - x)
    else Number(x)
  }

  lemma HexDigitReadsBack(d: nat)
    requires d < 16
    ensures IsHex(HexDigit(d)) && Digit(HexDigit(d)) == d
  {
  }

  lemma ValueAppend(s: string, c: char)
    requires IsHex(c) && forall c' :: c' in s ==> IsHex(c')
    ensures Value(s + [c]) == Value(s) * 16 + Digit(c)
  {
    assert (s + [c])[..|s|] == s;
  }

  lemma {:induction false} HexReadsBack(n: nat)
    ensures forall c :: c in Hex(n) ==> IsHex(c)
    ensures Value(Hex(n)) == n
  {
    hide IsHex, Digit, HexDigit;
    HexDigitReadsBack(n % 16);
    if n >= 16 {
      HexReadsBack(n / 16);
      ValueAppend(Hex(n / 16), HexDigit(n % 16));
    }
  }

  lemma {:induction false} DigitsStop(ds: string, tail: string)
    requires forall c :: c in ds ==> IsHex(c)
    requires tail == "" || !IsHex(tail[0])
    ensures Digits(ds + tail) == ds
  {
    if ds == "" {
      assert ds + tail == tail;
    } else {
      assert (ds + tail)[1..] == ds[1..] + tail;
      DigitsStop(ds[1..], tail);
    }
  }

  /** The same text with any of the letters a to f in upper case. */
  predicate Spells(t: string, s: string) {
    |t| == |s| && forall i :: 0 <= i < |s| ==>
      t[i] == s[i] || ('a' <= s[i] <= 'f' && t[i] as int == s[i] as int - 'a' as int + 'A' as int)
  }

  lemma LetterCase(c: char, d: char)
    requires IsHex(c) && (d == c || ('a' <= c <= 'f' && d as int == c as int - 'a' as int + 'A' as int))
    ensures IsHex(d) && Digit(d) == Digit(c)
  {
  }

  lemma {:induction false} SpellingsAgree(t: string, s: string)
    requires Spells(t, s) && forall c :: c in s ==> IsHex(c)
    ensures forall c :: c in t ==> IsHex(c)
    ensures Value(t) == Value(s)
  {
    hide IsHex, Digit;
    if s != [] {
      var k := |s| - 1;
      SpellingsAgree(t[..k], s[..k]);
      LetterCase(s[k], t[k]);
      assert t == t[..k] + [t[k]];
    }
  }

  lemma {:induction false} BlanksSkipped(blanks: string, s: string)
    requires (forall c :: c in blanks ==> IsSpace(c)) && (s == "" || !IsSpace(s[0]))
    ensures SkipSpace(blanks + s) == s
  {
    if blanks == "" {
      assert blanks + s == s;
    } else {
      assert (blanks + s)[1..] == blanks[1..] + s;
      BlanksSkipped(blanks[1..], s);
    }
  }

  /** What a size line may look like: white space, a plus or minus sign, 0x, digits
      of either case, and anything from the first byte that is no digit on. */
  datatype SizeLine = SizeLine(blanks: string, sign: string, prefix: string, digits: string, tail: string)

  predicate WellFormed(l: SizeLine) {
    && (forall c :: c in l.blanks ==> IsSpace(c))
    && (l.sign == "" || l.sign == "+" || l.sign == "-")
    && (l.prefix == "0x" || l.prefix == "0X" ||
        (l.prefix == "" && !(l.digits == "0" && l.tail != "" && (l.tail[0] == 'x' || l.tail[0] == 'X'))))
    && l.digits != "" && (forall c :: c in l.digits ==> IsHex(c))
    && (l.tail == "" || !IsHex(l.tail[0]))
  }

  function Text(l: SizeLine): string {
    l.blanks + (l.sign + (l.prefix + (l.digits + l.tail)))
  }

  lemma AfterPrefix(l: SizeLine)
    requires WellFormed(l)
    ensures var u := l.prefix + (l.digits + l.tail);
            WithoutPrefix(u) == l.digits + l.tail && u != "" && IsHex(u[0])
  {
    var rest := l.digits + l.tail;
    var u := l.prefix + rest;
    assert rest[0] == l.digits[0];
    if l.prefix != "" {
      assert u[0] == '0' && u[1] == l.prefix[1] && u[2] == rest[0] && u[2..] == rest;
    } else {
      assert u == rest;
      if |l.digits| > 1 {
        assert u[1] == l.digits[1] && l.digits[1] in l.digits;
      } else if |u| > 1 {
        assert l.digits == [l.digits[0]];
        assert u[1] == l.tail[0];
      }
    }
  }

  /** Such a line reads as the value of its digits, saturating; a minus sign negates
      what does not saturate, modulo ulongMax + 1. */
  lemma SizeLineReads(l: SizeLine, ulongMax: nat)
    requires WellFormed(l)
    ensures var x := Value(l.digits);
            StrToUl(Text(l), ulongMax) ==
              Number(if x > ulongMax then ulongMax
                     else if l.sign == "-" && x > 0 then ulongMax + 1 - x
                     else x)
  {
    hide SkipSpace, Digits, Value, IsHex, IsSpace, WithoutPrefix, WithoutSign, WellFormed;
    var u := l.prefix + (l.digits + l.tail);
    var t := l.sign + u;
    AfterSign(l);
    AfterPrefix(l);
    AfterDigits(l);
    NoBlankAhead(l, t);
  }

  lemma AfterDigits(l: SizeLine)
    requires WellFormed(l)
    ensures Digits(l.digits + l.tail) == l.digits != ""
  {
    DigitsStop(l.digits, l.tail);
  }

  lemma AfterSign(l: SizeLine)
    requires WellFormed(l)
    ensures var u := l.prefix + (l.digits + l.tail); WithoutSign(l.sign + u) == u
  {
    var u := l.prefix + (l.digits + l.tail);
    AfterPrefix(l);
    if l.sign == "" {
      assert l.sign + u == u;
    } else {
      assert (l.sign + u)[0] == l.sign[0] && (l.sign + u)[1..] == u;
    }
  }

  lemma NoBlankAhead(l: SizeLine, t: string)
    requires WellFormed(l) && t == l.sign + (l.prefix + (l.digits + l.tail))
    ensures t != "" && SkipSpace(l.blanks + t) == t && (t[0] == '-' <==> l.sign == "-")
  {
    AfterPrefix(l);
    BlanksSkipped(l.blanks, t);
  }

  /** A size line reads back however its letters are written. */
  lemma SizeReadsBackInAnyCase(n: nat, t: string, ulongMax: nat)
    requires Spells(t, Hex(n))
    ensures StrToUl(t + "\r\n", ulongMax) == Number(if n > ulongMax then ulongMax else n)
  {
    hide Hex, Value, StrToUl, IsHex;
    var l := SizeLine("", "", "", t, "\r\n");
    HexReadsBack(n);
    SpellingsAgree(t, Hex(n));
    LineEndIsNoDigit();
    SizeLineReads(l, ulongMax);
    assert Text(l) == t + "\r\n";
  }

  lemma LineEndIsNoDigit()
    ensures !IsHex('\r')
  {
  }

  /** A printed size reads back, up to saturation. */
  lemma SizeReadsBack(n: nat, ulongMax: nat)
    ensures StrToUl(Hex(n) + "\r\n", ulongMax) == Number(if n > ulongMax then ulongMax else n)
  {
    SizeReadsBackInAnyCase(n, Hex(n), ulongMax);
  }

  // ---- lines ----

  /** Length of the first line, its newline included. */
  function LineEnd(s: string): (n: nat)
    ensures n <= |s|
    ensures s != "" ==> n > 0
    ensures n < |s| ==> n > 0 && s[n - 1] == '\n'
    ensures forall k :: 0 <= k < n - 1 ==> s[k] != '\n'
  {
    if s == "" then 0 else if s[0] == '\n' then 1 else 1 + LineEnd(s[1..])
  }

  predicate Complete(line: string) {
    line != "" && line[|line| - 1] == '\n'
  }

  datatype Line = NoLine | Line(text: string, rest: string)

  /** What one line read leaves: a last line without newline is accepted at the
      end of the stream, but not when the stream breaks there. */
  function GetLine(s: string, broken: bool): (l: Line)
    ensures l.Line? ==> l.text + l.rest == s && |l.rest| < |s|
  {
    var n := LineEnd(s);
    if s == "" || (broken && !Complete(s[..n])) then NoLine else Line(s[..n], s[n..])
  }

  lemma {:induction false} LineEndOf(text: string, rest: string)
    requires '\n' !in text
    ensures LineEnd(text + "\n" + rest) == |text| + 1
  {
    var s := text + "\n" + rest;
    if text != "" {
      assert s[1..] == text[1..] + "\n" + rest;
      LineEndOf(text[1..], rest);
    }
  }

  lemma LineReadsBack(text: string, rest: string, broken: bool)
    requires '\n' !in text
    ensures GetLine(text + "\r\n" + rest, broken) == Line(text + "\r\n", rest)
  {
    var s := text + "\r\n" + rest;
    assert s == (text + "\r") + "\n" + rest;
    LineEndOf(text + "\r", rest);
    assert s[..|text| + 2] == text + "\r\n" && s[|text| + 2..] == rest;
  }

  /** The bytes a C string function sees. */
  function CString(s: string): string {
    if s == "" || s[0] == '\0' then "" else [s[0]] + CString(s[1..])
  }

  predicate IsBlank(line: string) {
    CString(line) == "\r\n"
  }

  // ---- the reader ----

  const HEADER_MAX_LENGTH := 8192

  /** Outcome of reading a chunked body: the content, the trailer lines as read,
      and what is left of the stream. */
  datatype Decoded = Failed | Decoded(body: string, trailer: seq<string>, rest: string)

  function Behind(body: string, d: Decoded): Decoded {
    if d.Failed? then d else d.(body := body + d.body)
  }

  function Below(line: string, d: Decoded): Decoded {
    if d.Failed? then d else d.(trailer := [line] + d.trailer)
  }

  /** The trailer part, from a line already read. */
  function TrailerFrom(line: string, s: string, broken: bool): (d: Decoded)
    ensures d.Decoded? ==> d.body == ""
    decreases |s|
  {
    if IsBlank(line) then Decoded("", [], s)
    else if |line| > HEADER_MAX_LENGTH then Failed
    else
      match GetLine(s, broken)
      case NoLine => Failed
      case Line(next, rest) => Below(line, TrailerFrom(next, rest, broken))
  }

  function Trailer(s: string, broken: bool): Decoded {
    match GetLine(s, broken)
    case NoLine => Failed
    case Line(line, rest) => TrailerFrom(line, rest, broken)
  }

  /** The size line behind a chunk of n bytes, if the chunk is framed rightly. */
  function NextSize(s: string, n: nat, broken: bool): (l: Line)
    ensures l.Line? ==> n <= |s| && |l.rest| < |s| - n
  {
    if n > |s| then NoLine
    else
      var end := GetLine(s[n..], broken);
      if end.NoLine? || !IsBlank(end.text) then NoLine else GetLine(end.rest, broken)
  }

  /** The chunks, from a size line already read. */
  function ChunksFrom(line: string, s: string, broken: bool, ulongMax: nat): Decoded
    decreases |s|
  {
    match StrToUl(line, ulongMax)
    case NoDigits => Failed
    case Number(n) =>
      if n == ulongMax then Failed
      else if n == 0 then Trailer(s, broken)
      else
        match NextSize(s, n, broken)
        case NoLine => Failed
        case Line(next, rest) => Behind(s[..n], ChunksFrom(next, rest, broken, ulongMax))
  }

  function Decode(s: string, broken: bool, ulongMax: nat): Decoded {
    match GetLine(s, broken)
    case NoLine => Failed
    case Line(line, rest) => ChunksFrom(line, rest, broken, ulongMax)
  }

  // ---- the writer ----

  datatype Field = Field(name: string, value: string)

  function FieldLine(f: Field): string {
    f.name + ": " + f.value + "\r\n"
  }

  function FieldLines(fs: seq<Field>): string {
    if fs == [] then "" else FieldLine(fs[0]) + FieldLines(fs[1..])
  }

  function Emitted(payload: string): string {
    if payload == "" then "" else Hex(|payload|) + "\r\n" + payload + "\r\n"
  }

  function EmittedAll(payloads: seq<string>): string {
    if payloads == [] then "" else Emitted(payloads[0]) + EmittedAll(payloads[1..])
  }

  function DoneMarker(trailer: seq<Field>): string {
    "0\r\n" + FieldLines(trailer) + "\r\n"
  }

  /** A provider call whose last write is empty ends the writer's loop. */
  predicate EndsEmpty(call: seq<string>) {
    call != [] && call[|call| - 1] == ""
  }

  /** What the writer sends for a provider that writes the payloads of calls[0],
      then calls[1], ..., and in its last call writes those of `last` and reports
      the end. */
  function Sent(calls: seq<seq<string>>, last: seq<string>, trailer: seq<Field>): string {
    if calls == [] then EmittedAll(last) + DoneMarker(trailer)
    else if EndsEmpty(calls[0]) then EmittedAll(calls[0])
    else EmittedAll(calls[0]) + Sent(calls[1..], last, trailer)
  }

  function Concat(payloads: seq<string>): string {
    if payloads == [] then "" else payloads[0] + Concat(payloads[1..])
  }

  function Content(calls: seq<seq<string>>, last: seq<string>): string {
    if calls == [] then Concat(last) else Concat(calls[0]) + Content(calls[1..], last)
  }

  function Lines(fs: seq<Field>): (ls: seq<string>)
    ensures |ls| == |fs|
  {
    if fs == [] then [] else [FieldLine(fs[0])] + Lines(fs[1..])
  }

  // ---- the round trip ----

  /** A trailer field that survives: one line, short enough. */
  predicate Plain(f: Field) {
    && '\n' !in f.name && '\n' !in f.value
    && |FieldLine(f)| <= HEADER_MAX_LENGTH
  }

  lemma BlankLine(line: string)
    requires LineEnd(line) == |line|
    ensures IsBlank(line) <==> line == "\r\n"
  {
    assert CString("\r\n") == "\r\n";
    if IsBlank(line) {
      assert CString(line)[1..] == CString(line[1..]) == "\n";
      assert line[1..][0] == '\n';
      assert line[1] == '\n';
    }
  }

  lemma BlankReadsBack(rest: string, broken: bool)
    ensures GetLine("\r\n" + rest, broken) == Line("\r\n", rest) && IsBlank("\r\n")
  {
    assert "" + "\r\n" + rest == "\r\n" + rest;
    LineReadsBack("", rest, broken);
    BlankLine("\r\n");
  }

  lemma BehindCancels(a: string, d: Decoded, b: string, ls: seq<string>, rest: string)
    ensures Behind(a, d) == Decoded(a + b, ls, rest) <==> d == Decoded(b, ls, rest)
  {
    if d.Decoded? && a + d.body == a + b {
      assert (a + d.body)[|a|..] == d.body && (a + b)[|a|..] == b;
    }
  }

  /** Reading a body always uses up some of the stream. */
  lemma {:induction false} TrailerConsumes(line: string, s: string, broken: bool)
    ensures var d := TrailerFrom(line, s, broken); d.Decoded? ==> |d.rest| <= |s|
    decreases |s|
  {
    var l := GetLine(s, broken);
    if l.Line? {
      TrailerConsumes(l.text, l.rest, broken);
    }
  }

  lemma {:induction false} ChunksConsume(line: string, s: string, broken: bool, ulongMax: nat)
    ensures var d := ChunksFrom(line, s, broken, ulongMax); d.Decoded? ==> |d.rest| <= |s|
    decreases |s|
  {
    var x := StrToUl(line, ulongMax);
    if x.Number? {
      var l := GetLine(s, broken);
      if x.value == 0 && l.Line? {
        TrailerConsumes(l.text, l.rest, broken);
      } else {
        var next := NextSize(s, x.value, broken);
        if next.Line? {
          ChunksConsume(next.text, next.rest, broken, ulongMax);
        }
      }
    }
  }

  lemma DecodeConsumes(s: string, broken: bool, ulongMax: nat)
    ensures var d := Decode(s, broken, ulongMax); d.Decoded? ==> |d.rest| < |s|
  {
    var l := GetLine(s, broken);
    if l.Line? {
      ChunksConsume(l.text, l.rest, broken, ulongMax);
    }
  }

  /** One trailer line read. */
  lemma TrailerStep(s: string, line: string, tail: string, broken: bool)
    requires GetLine(s, broken) == Line(line, tail) && !IsBlank(line)
    ensures Trailer(s, broken) == if |line| > HEADER_MAX_LENGTH then Failed else Below(line, Trailer(tail, broken))
  {
  }

  lemma FieldLineReadsBack(f: Field, tail: string, broken: bool)
    requires '\n' !in f.name && '\n' !in f.value
    ensures GetLine(FieldLine(f) + tail, broken) == Line(FieldLine(f), tail)
    ensures !IsBlank(FieldLine(f))
  {
    var text := f.name + ": " + f.value;
    LineReadsBack(text, tail, broken);
    LineReadsBack(text, "", broken);
    assert FieldLine(f) == text + "\r\n" == text + "\r\n" + "";
    BlankLine(FieldLine(f));
  }

  /** A field with a newline inside does not come back as one line. */
  lemma FieldLineBreaks(f: Field, tail: string, broken: bool)
    requires '\n' in f.name || '\n' in f.value
    ensures var l := GetLine(FieldLine(f) + tail, broken); l.Line? ==> |l.text| < |FieldLine(f)|
  {
    var text := f.name + ": " + f.value;
    assert '\n' in text by {
      if '\n' in f.name {
        var i :| 0 <= i < |f.name| && f.name[i] == '\n';
        assert text[i] == '\n';
      } else {
        var i :| 0 <= i < |f.value| && f.value[i] == '\n';
        assert text[|f.name| + 2 + i] == '\n';
      }
    }
    assert FieldLine(f) + tail == text + ("\r\n" + tail);
    FirstLineShort(text, "\r\n" + tail);
  }

  lemma BelowCancels(line: string, d: Decoded, ls: seq<string>, rest: string)
    ensures Below(line, d) == Decoded("", [line] + ls, rest) <==> d == Decoded("", ls, rest)
  {
    if d.Decoded? && [line] + d.trailer == [line] + ls {
      assert ([line] + d.trailer)[1..] == d.trailer && ([line] + ls)[1..] == ls;
    }
  }

  lemma TrailerStarts(s: string, broken: bool)
    ensures var d := Trailer(s, broken);
            d.Decoded? && d.trailer != [] ==> GetLine(s, broken).Line? && d.trailer[0] == GetLine(s, broken).text
  {
    var l := GetLine(s, broken);
    if l.Line? && !IsBlank(l.text) {
      TrailerStep(s, l.text, l.rest, broken);
    }
  }

  /** The trailer comes back line by line exactly when every field is plain. */
  lemma {:induction false} TrailerReadsBack(fs: seq<Field>, rest: string, broken: bool)
    ensures Trailer(FieldLines(fs) + "\r\n" + rest, broken) == Decoded("", Lines(fs), rest)
      <==> forall f :: f in fs ==> Plain(f)
  {
    var s := FieldLines(fs) + "\r\n" + rest;
    if fs == [] {
      assert s == "\r\n" + rest;
      BlankReadsBack(rest, broken);
    } else {
      var f, tail := fs[0], FieldLines(fs[1..]) + "\r\n" + rest;
      assert s == FieldLine(f) + tail;
      assert fs == [f] + fs[1..];
      if '\n' in f.name || '\n' in f.value {
        assert f in fs && !Plain(f);
        FieldLineBreaks(f, tail, broken);
        TrailerStarts(s, broken);
      } else {
        FieldLineReadsBack(f, tail, broken);
        TrailerStep(s, FieldLine(f), tail, broken);
        TrailerReadsBack(fs[1..], rest, broken);
        BelowCancels(FieldLine(f), Trailer(tail, broken), Lines(fs[1..]), rest);
      }
    }
  }

  lemma {:induction false} FirstLineShort(a: string, b: string)
    requires '\n' in a
    ensures LineEnd(a + b) <= |a|
  {
    if a[0] != '\n' {
      assert (a + b)[1..] == a[1..] + b;
      FirstLineShort(a[1..], b);
    }
  }

  /** One chunk read. */
  lemma ChunkStep(line: string, n: nat, s: string, end: string, more: string, broken: bool, ulongMax: nat)
    requires StrToUl(line, ulongMax) == Number(n) && 0 < n < ulongMax && n <= |s|
    requires GetLine(s[n..], broken) == Line(end, more) && IsBlank(end)
    ensures ChunksFrom(line, s, broken, ulongMax) == Behind(s[..n], Decode(more, broken, ulongMax))
  {
  }

  lemma Regroup(a: string, b: string, c: string, d: string, e: string)
    ensures a + b + c + d + e == a + b + (c + (d + e))
  {
  }

  lemma SizeLineReadsBack(p: string, s: string, broken: bool)
    requires p != ""
    ensures GetLine(Emitted(p) + s, broken) == Line(Hex(|p|) + "\r\n", p + ("\r\n" + s))
  {
    hide Hex, GetLine;
    Regroup(Hex(|p|), "\r\n", p, "\r\n", s);
    HexReadsBack(|p|);
    LineReadsBack(Hex(|p|), p + ("\r\n" + s), broken);
  }

  lemma ChunkReadsBack(p: string, s: string, broken: bool, ulongMax: nat)
    requires p != ""
    ensures Decode(Emitted(p) + s, broken, ulongMax)
      == if |p| >= ulongMax then Failed else Behind(p, Decode(s, broken, ulongMax))
  {
    var line, rest := Hex(|p|) + "\r\n", p + ("\r\n" + s);
    SizeLineReadsBack(p, s, broken);
    SizeReadsBack(|p|, ulongMax);
    if |p| < ulongMax {
      assert rest[..|p|] == p && rest[|p|..] == "\r\n" + s;
      BlankReadsBack(s, broken);
      ChunkStep(line, |p|, rest, "\r\n", s, broken, ulongMax);
    }
  }

  ghost predicate AllBelow(payloads: seq<string>, ulongMax: nat) {
    forall p :: p in payloads ==> |p| < ulongMax
  }

  lemma NothingEmitted(tail: string)
    ensures Emitted("") == "" && Emitted("") + tail == tail
  {
  }

  lemma {:induction false} ChunksReadBack(ps: seq<string>, s: string, broken: bool, ulongMax: nat)
    requires ulongMax > 0
    ensures Decode(EmittedAll(ps) + s, broken, ulongMax)
      == if AllBelow(ps, ulongMax) then Behind(Concat(ps), Decode(s, broken, ulongMax)) else Failed
  {
    hide Decode, Emitted;
    if ps == [] {
      assert EmittedAll(ps) + s == s;
    } else {
      var p, tail := ps[0], EmittedAll(ps[1..]) + s;
      assert EmittedAll(ps) + s == Emitted(p) + tail;
      ChunksReadBack(ps[1..], s, broken, ulongMax);
      assert ps == [p] + ps[1..];
      if p == "" {
        NothingEmitted(tail);
        assert Concat(ps) == Concat(ps[1..]);
      } else {
        ChunkReadsBack(p, tail, broken, ulongMax);
        var d := Decode(s, broken, ulongMax);
        if d.Decoded? {
          assert p + (Concat(ps[1..]) + d.body) == Concat(ps) + d.body;
        }
      }
    }
  }

  /** When the body gets through: the writer reaches its end marker, no size
      saturates, and no trailer field breaks its line. */
  ghost predicate Survives(calls: seq<seq<string>>, last: seq<string>, trailer: seq<Field>, ulongMax: nat) {
    && (forall c :: c in calls ==> !EndsEmpty(c) && AllBelow(c, ulongMax))
    && AllBelow(last, ulongMax)
    && (forall f :: f in trailer ==> Plain(f))
  }

  lemma SurvivesSplit(calls: seq<seq<string>>, last: seq<string>, trailer: seq<Field>, ulongMax: nat)
    requires calls != []
    ensures Survives(calls, last, trailer, ulongMax) <==>
      !EndsEmpty(calls[0]) && AllBelow(calls[0], ulongMax) && Survives(calls[1..], last, trailer, ulongMax)
  {
    assert calls == [calls[0]] + calls[1..];
  }

  lemma MarkerReadsBack(trailer: seq<Field>, rest: string, broken: bool, ulongMax: nat)
    requires ulongMax > 0
    ensures Decode(DoneMarker(trailer) + rest, broken, ulongMax) == Decoded("", Lines(trailer), rest)
      <==> forall f :: f in trailer ==> Plain(f)
  {
    var s := FieldLines(trailer) + "\r\n" + rest;
    assert Hex(0) == "0";
    assert DoneMarker(trailer) + rest == Hex(0) + "\r\n" + s;
    LineReadsBack(Hex(0), s, broken);
    SizeReadsBack(0, ulongMax);
    TrailerReadsBack(trailer, rest, broken);
  }

  /** One call's chunks in front of the rest of the body. */
  lemma CallReadsBack(c: seq<string>, tail: string, body: string, ls: seq<string>, rest: string,
                      broken: bool, ulongMax: nat)
    requires ulongMax > 0
    ensures Decode(EmittedAll(c) + tail, broken, ulongMax) == Decoded(Concat(c) + body, ls, rest)
      <==> AllBelow(c, ulongMax) && Decode(tail, broken, ulongMax) == Decoded(body, ls, rest)
  {
    ChunksReadBack(c, tail, broken, ulongMax);
    BehindCancels(Concat(c), Decode(tail, broken, ulongMax), body, ls, rest);
  }

  /** Chunks without an end marker never leave exactly what follows them. */
  lemma TruncationShows(c: seq<string>, rest: string, broken: bool, ulongMax: nat)
    requires ulongMax > 0
    ensures var d := Decode(EmittedAll(c) + rest, broken, ulongMax); d.Decoded? ==> d.rest != rest
  {
    ChunksReadBack(c, rest, broken, ulongMax);
    DecodeConsumes(rest, broken, ulongMax);
  }

  /** The last call in front of what follows the body. */
  lemma LastCallReadsBack(last: seq<string>, trailer: seq<Field>, rest: string, broken: bool, ulongMax: nat)
    requires ulongMax > 0
    ensures Decode(EmittedAll(last) + DoneMarker(trailer) + rest, broken, ulongMax)
              == Decoded(Concat(last), Lines(trailer), rest)
      <==> AllBelow(last, ulongMax) && forall f :: f in trailer ==> Plain(f)
  {
    hide EmittedAll, DoneMarker, Decode, Plain;
    var tail := DoneMarker(trailer) + rest;
    MarkerReadsBack(trailer, rest, broken, ulongMax);
    CallReadsBack(last, tail, "", Lines(trailer), rest, broken, ulongMax);
    assert EmittedAll(last) + DoneMarker(trailer) + rest == EmittedAll(last) + tail;
    assert Concat(last) + "" == Concat(last);
  }

  /** The reader gets the payloads and the trailer back, and stops exactly where
      the body ends, if and only if nothing in the input breaks the framing. */
  lemma {:induction false} ChunkedReadsBack(calls: seq<seq<string>>, last: seq<string>, trailer: seq<Field>,
                                            rest: string, broken: bool, ulongMax: nat)
    requires ulongMax > 0
    ensures Decode(Sent(calls, last, trailer) + rest, broken, ulongMax)
              == Decoded(Content(calls, last), Lines(trailer), rest)
      <==> Survives(calls, last, trailer, ulongMax)
  {
    hide Decode, EmittedAll, DoneMarker, Plain, AllBelow;
    if calls == [] {
      LastCallReadsBack(last, trailer, rest, broken, ulongMax);
    } else if EndsEmpty(calls[0]) {
      SurvivesSplit(calls, last, trailer, ulongMax);
      TruncationShows(calls[0], rest, broken, ulongMax);
    } else {
      var c, tail := calls[0], Sent(calls[1..], last, trailer) + rest;
      SurvivesSplit(calls, last, trailer, ulongMax);
      ChunkedReadsBack(calls[1..], last, trailer, rest, broken, ulongMax);
      CallReadsBack(c, tail, Content(calls[1..], last), Lines(trailer), rest, broken, ulongMax);
      SentSplit(calls, last, trailer, rest);
    }
  }

  lemma SentSplit(calls: seq<seq<string>>, last: seq<string>, trailer: seq<Field>, rest: string)
    requires calls != [] && !EndsEmpty(calls[0])
    ensures Sent(calls, last, trailer) + rest == EmittedAll(calls[0]) + (Sent(calls[1..], last, trailer) + rest)
  {
    hide EmittedAll;
  }
}
