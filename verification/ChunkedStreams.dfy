/** The chunked writer and reader as they run: a stream that takes or gives a
    few bytes at a time, a line buffer of sixteen bytes that spills over, and
    a receiver with a size limit. */
module ChunkedStreams {
  import opened Chunked

  const RECV_BUFSIZ := 4096
  const LINE_BUFSIZ := 16

  // ---- writing ----

  /** A stream that takes `room` bytes in all and then fails. */
  class OutStream {
    const room: nat
    var sent: string

    ghost predicate Valid()
      reads this
    {
      |sent| <= room
    }

    constructor (room: nat)
      ensures Valid() && this.room == room && sent == ""
    {
      this.room, sent := room, "";
    }

    predicate IsWritable()
      reads this
    {
      |sent| < room
    }

    /** Takes some of the bytes, as many as it likes. */
    method Write(s: string) returns (n: int)
      requires Valid() && s != ""
      modifies this`sent
      ensures Valid()
      ensures if |old(sent)| == room then n < 0 && sent == old(sent)
              else 0 < n <= |s| && sent == old(sent) + s[..n]
    {
      if |sent| == room {
        return -1;
      }
      n :| 0 < n <= |s| && |sent| + n <= room;
      sent := sent + s[..n];
    }
  }

  method WriteData(strm: OutStream, s: string) returns (ok: bool)
    requires strm.Valid()
    modifies strm`sent
    ensures strm.Valid()
    ensures ok <==> |old(strm.sent)| + |s| <= strm.room
    ensures ok ==> strm.sent == old(strm.sent) + s
    ensures !ok ==> |strm.sent| == strm.room
  {
    var offset := 0;
    while offset < |s|
      invariant offset <= |s| && strm.Valid()
      invariant strm.sent == old(strm.sent) + s[..offset]
    {
      var length := strm.Write(s[offset..]);
      if length < 0 {
        return false;
      }
      assert s[..offset] + s[offset..][..length] == s[..offset + length];
      offset := offset + length;
    }
    return true;
  }

  lemma HexUnrolls(m: nat, s: string)
    ensures Hex(m) + s == (if m / 16 > 0 then Hex(m / 16) else "") + ([HexDigit(m % 16)] + s)
  {
  }

  method FromIToHex(n: nat) returns (s: string)
    ensures s == Hex(n)
  {
    hide Hex, HexDigit;
    s := [HexDigit(n % 16)];
    var m := n / 16;
    HexUnrolls(n, "");
    assert Hex(n) + "" == Hex(n);
    while m > 0
      invariant Hex(n) == (if m > 0 then Hex(m) else "") + s
    {
      HexUnrolls(m, s);
      s := [HexDigit(m % 16)] + s;
      m := m / 16;
    }
  }

  /** The data sink handed to the content provider. */
  class ChunkedWriter {
    const strm: OutStream
    var ok: bool
    var dataAvailable: bool
    ghost var wanted: string  // what is on the stream, or would be had it room

    ghost predicate Valid()
      reads this, strm
    {
      && strm.Valid()
      && (if ok then strm.sent == wanted else strm.room < |wanted|)
    }

    constructor (strm: OutStream)
      requires strm.Valid()
      ensures Valid() && this.strm == strm && ok && dataAvailable
    {
      this.strm, ok, dataAvailable := strm, true, true;
      this.wanted := strm.sent;
    }

    /** Sends a piece; a failure is remembered. */
    method Send(s: string)
      requires Valid() && s != ""
      modifies this`ok, this`wanted, strm`sent
      ensures Valid() && wanted == old(wanted) + s && (ok ==> old(ok))
    {
      var w := WriteData(strm, s);
      if !w {
        ok := false;
      }
      wanted := wanted + s;
    }

    /** The sink's write, without compression. */
    method Write(payload: string)
      requires Valid()
      modifies this, strm`sent
      ensures Valid() && wanted == old(wanted) + Emitted(payload) && (ok ==> old(ok))
      ensures ok ==> dataAvailable == (payload != "")
    {
      if ok {
        dataAvailable := payload != "";
        if payload != "" {
          var size := FromIToHex(|payload|);
          var chunk := size + "\r\n" + payload + "\r\n";
          if strm.IsWritable() {
            Send(chunk);
          } else {
            ok, wanted := false, wanted + chunk;
          }
        }
      } else {
        wanted := wanted + Emitted(payload);
      }
    }

    method Done(trailer: seq<Field>)
      requires Valid()
      modifies this, strm`sent
      ensures Valid() && wanted == old(wanted) + DoneMarker(trailer) && (ok ==> old(ok))
      ensures ok ==> !dataAvailable
    {
      if !ok {
        wanted := wanted + DoneMarker(trailer);
        return;
      }
      dataAvailable := false;
      Send("0\r\n");
      SendTrailer(trailer);
      Send("\r\n");
    }

    method SendTrailer(trailer: seq<Field>)
      requires Valid()
      modifies this`ok, this`wanted, strm`sent
      ensures Valid() && wanted == old(wanted) + FieldLines(trailer) && (ok ==> old(ok))
    {
      for i := 0 to |trailer|
        invariant Valid() && (ok ==> old(ok))
        invariant wanted == old(wanted) + FieldLines(trailer[..i])
      {
        FieldLinesGrow(trailer, i);
        Send(FieldLine(trailer[i]));
      }
      assert trailer[..|trailer|] == trailer;
    }

    /** One provider call: it writes its payloads one after the other. */
    method Provide(call: seq<string>)
      requires Valid()
      modifies this, strm`sent
      ensures Valid() && wanted == old(wanted) + EmittedAll(call) && (ok ==> old(ok))
      ensures ok ==> dataAvailable == if call == [] then old(dataAvailable) else !EndsEmpty(call)
    {
      hide Emitted;
      for i := 0 to |call|
        invariant Valid() && (ok ==> old(ok))
        invariant wanted == old(wanted) + EmittedAll(call[..i])
        invariant ok ==> dataAvailable == if i == 0 then old(dataAvailable) else call[i - 1] != ""
      {
        EmittedGrows(call, i);
        Write(call[i]);
      }
      assert call[..|call|] == call;
    }
  }

  lemma {:induction false} FieldLinesAppend(fs: seq<Field>, f: Field)
    ensures FieldLines(fs + [f]) == FieldLines(fs) + FieldLine(f)
  {
    if fs != [] {
      assert (fs + [f])[1..] == fs[1..] + [f];
      FieldLinesAppend(fs[1..], f);
    }
  }

  lemma FieldLinesGrow(fs: seq<Field>, i: nat)
    requires i < |fs|
    ensures FieldLines(fs[..i + 1]) == FieldLines(fs[..i]) + FieldLine(fs[i])
  {
    assert fs[..i + 1] == fs[..i] + [fs[i]];
    FieldLinesAppend(fs[..i], fs[i]);
  }

  lemma {:induction false} EmittedAppend(ps: seq<string>, p: string)
    ensures EmittedAll(ps + [p]) == EmittedAll(ps) + Emitted(p)
  {
    if ps != [] {
      assert (ps + [p])[1..] == ps[1..] + [p];
      EmittedAppend(ps[1..], p);
    }
  }

  lemma EmittedGrows(ps: seq<string>, i: nat)
    requires i < |ps|
    ensures EmittedAll(ps[..i + 1]) == EmittedAll(ps[..i]) + Emitted(ps[i])
  {
    assert ps[..i + 1] == ps[..i] + [ps[i]];
    EmittedAppend(ps[..i], ps[i]);
  }

  /** What the i-th turn of the writer's loop sends, and whether one follows. */
  function Piece(calls: seq<seq<string>>, last: seq<string>, i: nat, trailer: seq<Field>): string
    requires i <= |calls|
  {
    if i < |calls| then EmittedAll(calls[i]) else EmittedAll(last) + DoneMarker(trailer)
  }

  predicate Goes(calls: seq<seq<string>>, i: nat)
    requires i <= |calls|
  {
    i < |calls| && !EndsEmpty(calls[i])
  }

  lemma SentStep(calls: seq<seq<string>>, last: seq<string>, i: nat, trailer: seq<Field>)
    requires i <= |calls|
    ensures Sent(calls[i..], last, trailer) ==
      Piece(calls, last, i, trailer) + if Goes(calls, i) then Sent(calls[i + 1..], last, trailer) else ""
  {
    hide EmittedAll, DoneMarker;
    if i < |calls| {
      assert calls[i..][0] == calls[i] && calls[i..][1..] == calls[i + 1..];
    }
  }

  /** One call of the provider. */
  method Turn(sink: ChunkedWriter, calls: seq<seq<string>>, last: seq<string>, i: nat, trailer: seq<Field>)
    requires sink.Valid() && sink.dataAvailable && i <= |calls|
    modifies sink, sink.strm`sent
    ensures sink.Valid() && sink.wanted == old(sink.wanted) + Piece(calls, last, i, trailer)
    ensures sink.ok ==> sink.dataAvailable == Goes(calls, i)
  {
    hide EmittedAll, DoneMarker;
    if i < |calls| {
      sink.Provide(calls[i]);
    } else {
      sink.Provide(last);
      sink.Done(trailer);
    }
  }

  /** Runs the provider until it has nothing more: one call for each element of
      `calls`, then one that writes `last` and reports the end. */
  method WriteContentChunked(strm: OutStream, calls: seq<seq<string>>, last: seq<string>, trailer: seq<Field>)
    returns (ok: bool)
    requires strm.Valid()
    modifies strm`sent
    ensures strm.Valid()
    ensures ok ==> strm.sent == old(strm.sent) + Sent(calls, last, trailer)
    ensures |old(strm.sent)| + |Sent(calls, last, trailer)| < strm.room ==> ok
  {
    hide Piece, Sent;
    var sink := new ChunkedWriter(strm);
    assert calls[0..] == calls;
    ghost var left := Sent(calls[0..], last, trailer);
    ghost var all := strm.sent + left;
    var i := 0;
    while sink.dataAvailable
      invariant sink.Valid() && sink.ok && sink.strm == strm && fresh(sink)
      invariant i <= |calls| + 1 && all == sink.wanted + left
      invariant if sink.dataAvailable then i <= |calls| && left == Sent(calls[i..], last, trailer) else left == ""
      decreases if sink.dataAvailable then |calls| + 1 - i else 0
    {
      if !strm.IsWritable() {
        return false;
      }
      SentStep(calls, last, i, trailer);
      left := if Goes(calls, i) then Sent(calls[i + 1..], last, trailer) else "";
      Turn(sink, calls, last, i, trailer);
      assert all == sink.wanted + left;
      if !sink.ok {
        return false;
      }
      i := i + 1;
    }
    return true;
  }

  // ---- reading ----

  /** A stream that delivers its input piece by piece, then ends or breaks. */
  class InStream {
    const broken: bool
    var input: string

    constructor (input: string, broken: bool)
      ensures this.input == input && this.broken == broken
    {
      this.input, this.broken := input, broken;
    }

    method Read(n: nat) returns (got: int, data: string)
      requires n > 0
      modifies this`input
      ensures if old(input) == "" then got == (if broken then -1 else 0) && data == "" && input == ""
              else 0 < got <= n && got <= |old(input)| &&
                   data == old(input)[..got] && input == old(input)[got..]
    {
      if input == "" {
        return if broken then -1 else 0, "";
      }
      got :| 0 < got <= n && got <= |input|;
      data, input := input[..got], input[got..];
    }
  }

  /** The receiver of the content, which refuses to grow past its limit. */
  class Sink {
    const limit: nat
    var received: string

    ghost predicate Valid()
      reads this
    {
      |received| <= limit
    }

    constructor (limit: nat)
      ensures Valid() && this.limit == limit && received == ""
    {
      this.limit, received := limit, "";
    }

    method Accept(data: string) returns (ok: bool)
      requires Valid()
      modifies this`received
      ensures Valid() && ok == (|old(received)| + |data| <= limit)
      ensures received == if ok then old(received) + data else old(received)
    {
      ok := |received| + |data| <= limit;
      if ok {
        received := received + data;
      }
    }
  }

  lemma LineFound(text: string, rest: string, broken: bool)
    requires '\n' !in text
    ensures Chunked.GetLine(text + "\n" + rest, broken) == Line(text + "\n", rest)
  {
    var s := text + "\n" + rest;
    LineEndOf(text, rest);
    assert s[..|text| + 1] == text + "\n" && s[|text| + 1..] == rest;
  }

  lemma {:induction false} LineAtEnd(text: string, broken: bool)
    requires '\n' !in text
    ensures LineEnd(text) == |text|
    ensures Chunked.GetLine(text, broken) == if text == "" || broken then NoLine else Line(text, "")
  {
    if text != "" {
      LineAtEnd(text[1..], broken);
    }
    assert text[..|text|] == text;
  }

  lemma ByteMoved(text: string, input: string)
    requires '\n' !in text && input != ""
    ensures text + input == (text + [input[0]]) + input[1..]
    ensures input[0] != '\n' ==> '\n' !in text + [input[0]]
  {
  }

  class LineReader {
    const strm: InStream
    const fixed: array<char>
    var used: nat
    var growable: string
    ghost var line: string  // the line held

    ghost predicate Valid()
      reads this, fixed
    {
      && fixed.Length == LINE_BUFSIZ && used < LINE_BUFSIZ
      && (used > 0 ==> fixed[used] == '\0')
      && (growable != "" ==> used == LINE_BUFSIZ - 1)
      && line == if growable == "" then fixed[..used] else growable
    }

    constructor (strm: InStream)
      ensures Valid() && this.strm == strm && fresh(fixed)
    {
      this.strm := strm;
      fixed := new char[LINE_BUFSIZ];
      used, growable, line := 0, "", "";
    }

    method Text() returns (s: string)
      requires Valid()
      ensures s == line
    {
      s := if growable == "" then fixed[..used] else growable;
    }

    method Clear()
      requires Valid()
      modifies this`used, this`growable, this`line
      ensures Valid() && line == ""
    {
      used, growable, line := 0, "", "";
    }

    method Append(c: char)
      requires Valid()
      modifies this`used, this`growable, this`line, fixed
      ensures Valid() && line == old(line) + [c]
    {
      if used < LINE_BUFSIZ - 1 {
        fixed[used] := c;
        used := used + 1;
        fixed[used] := '\0';
      } else {
        if growable == "" {
          assert fixed[used] == '\0';
          growable := fixed[..used];
        }
        growable := growable + [c];
      }
      line := line + [c];
    }

    /** Reads byte by byte up to a newline or the end of the stream. */
    method GetLine() returns (ok: bool)
      requires Valid()
      modifies this`used, this`growable, this`line, fixed, strm`input
      ensures Valid()
      ensures var l := Chunked.GetLine(old(strm.input), strm.broken);
              ok == l.Line? && (ok ==> line == l.text && strm.input == l.rest)
    {
      hide Valid, Chunked.GetLine;
      Clear();
      ghost var s := strm.input;
      var i := 0;
      while true
        invariant Valid() && '\n' !in line && |line| == i
        invariant s == line + strm.input
        decreases |strm.input|
      {
        ghost var input := strm.input;
        var n, data := strm.Read(1);
        if n <= 0 {
          assert s == line;
          LineAtEnd(line, strm.broken);
          return n == 0 && i > 0;
        }
        ghost var before := line;
        ByteMoved(before, input);
        Append(data[0]);
        if data[0] == '\n' {
          LineFound(before, strm.input, strm.broken);
          return true;
        }
        i := i + 1;
      }
    }
  }

  method ReadContentWithLength(strm: InStream, len: nat, out: Sink) returns (ok: bool)
    requires out.Valid()
    modifies strm`input, out`received
    ensures out.Valid()
    ensures ok <==> len <= |old(strm.input)| && |old(out.received)| + len <= out.limit
    ensures ok ==> strm.input == old(strm.input)[len..]
                   && out.received == old(out.received) + old(strm.input)[..len]
  {
    ghost var s := strm.input;
    var r := 0;
    while r < len
      invariant out.Valid() && r <= len && r <= |s|
      invariant strm.input == s[r..] && out.received == old(out.received) + s[..r]
    {
      var want := if len - r < RECV_BUFSIZ then len - r else RECV_BUFSIZ;
      var n, data := strm.Read(want);
      if n <= 0 {
        return false;
      }
      var taken := out.Accept(data);
      if !taken {
        return false;
      }
      assert s[..r] + s[r..][..n] == s[..r + n];
      r := r + n;
    }
    return true;
  }

  lemma TrailerLine(line: string, s: string, broken: bool)
    ensures var l := Chunked.GetLine(s, broken);
            TrailerFrom(line, s, broken) ==
              if IsBlank(line) then Decoded("", [], s)
              else if |line| > HEADER_MAX_LENGTH || l.NoLine? then Failed
              else Below(line, TrailerFrom(l.text, l.rest, broken))
  {
  }

  /** The trailer lines, from a line already held. */
  method ReadTrailer(reader: LineReader) returns (ok: bool, trailer: seq<string>)
    requires reader.Valid()
    modifies reader`used, reader`growable, reader`line, reader.fixed, reader.strm`input
    ensures reader.Valid()
    ensures var d := TrailerFrom(old(reader.line), old(reader.strm.input), reader.strm.broken);
            ok == d.Decoded? && (ok ==> trailer == d.trailer && reader.strm.input == d.rest)
  {
    hide LineReader.Valid, Chunked.GetLine, CString, TrailerFrom;
    trailer := [];
    ghost var strm := reader.strm;
    ghost var all := TrailerFrom(reader.line, strm.input, strm.broken);
    ghost var left := all;
    var text := reader.Text();
    while !IsBlank(text)
      invariant reader.Valid() && text == reader.line
      invariant left == TrailerFrom(text, strm.input, strm.broken)
      invariant all == if left.Failed? then left else left.(trailer := trailer + left.trailer)
      decreases |strm.input|
    {
      TrailerLine(text, strm.input, strm.broken);
      if |text| > HEADER_MAX_LENGTH {
        return false, [];
      }
      trailer := trailer + [text];
      var more := reader.GetLine();
      if !more {
        return false, [];
      }
      left := TrailerFrom(reader.line, strm.input, strm.broken);
      text := reader.Text();
    }
    TrailerLine(text, strm.input, strm.broken);
    return true, trailer;
  }

  /** The content of one chunk, its line end, and the next size line. */
  method ReadChunk(reader: LineReader, n: nat, out: Sink) returns (ok: bool)
    requires reader.Valid() && out.Valid()
    modifies reader`used, reader`growable, reader`line, reader.fixed, reader.strm`input, out`received
    ensures reader.Valid() && out.Valid()
    ensures var l := NextSize(old(reader.strm.input), n, reader.strm.broken);
            && (ok <==> l.Line? && |old(out.received)| + n <= out.limit)
            && (ok ==> out.received == old(out.received) + old(reader.strm.input)[..n]
                       && reader.line == l.text && reader.strm.input == l.rest)
  {
    hide LineReader.Valid, Chunked.GetLine, CString;
    ok := ReadContentWithLength(reader.strm, n, out);
    if !ok {
      return;
    }
    ok := reader.GetLine();
    if !ok {
      return;
    }
    var text := reader.Text();
    if !IsBlank(text) {
      return false;
    }
    ok := reader.GetLine();
  }

  lemma ChunksEnd(line: string, s: string, broken: bool, ulongMax: nat)
    ensures var x := StrToUl(line, ulongMax);
            && (x.NoDigits? || x.value == ulongMax ==> ChunksFrom(line, s, broken, ulongMax).Failed?)
            && (x == Number(0) && ulongMax != 0 ==>
                  ChunksFrom(line, s, broken, ulongMax) == Trailer(s, broken))
  {
  }

  lemma ChunksStep(body: string, line: string, n: nat, s: string, l: Line, broken: bool, ulongMax: nat)
    requires StrToUl(line, ulongMax) == Number(n) && n > 0 && n != ulongMax
    requires l == NextSize(s, n, broken)
    ensures Behind(body, ChunksFrom(line, s, broken, ulongMax))
      == if l.NoLine? then Failed
         else Behind(body + s[..n], ChunksFrom(l.text, l.rest, broken, ulongMax))
  {
    if l.Line? {
      var d := ChunksFrom(l.text, l.rest, broken, ulongMax);
      if d.Decoded? {
        assert body + (s[..n] + d.body) == body + s[..n] + d.body;
      }
    }
  }

  method ReadContentChunked(strm: InStream, out: Sink, ulongMax: nat) returns (ok: bool, trailer: seq<string>)
    requires out.Valid()
    modifies strm`input, out`received
    ensures out.Valid()
    ensures var d := Decode(old(strm.input), strm.broken, ulongMax);
            && (ok <==> d.Decoded? && |old(out.received)| + |d.body| <= out.limit)
            && (ok ==> out.received == old(out.received) + d.body
                       && trailer == d.trailer && strm.input == d.rest)
  {
    hide Chunked.GetLine, ChunksFrom, TrailerFrom, LineReader.Valid;
    var reader := new LineReader(strm);
    var more := reader.GetLine();
    if !more {
      return false, [];
    }
    var next := ReadChunks(reader, out, ulongMax);
    if !next {
      return false, [];
    }
    more := reader.GetLine();
    if !more {
      return false, [];
    }
    ok, trailer := ReadTrailer(reader);
  }

  /** The chunks, from a size line already held, up to the one of size zero. */
  method ReadChunks(reader: LineReader, out: Sink, ulongMax: nat) returns (ok: bool)
    requires reader.Valid() && out.Valid()
    modifies reader`used, reader`growable, reader`line, reader.fixed, reader.strm`input, out`received
    ensures reader.Valid() && out.Valid()
    ensures var d := ChunksFrom(old(reader.line), old(reader.strm.input), reader.strm.broken, ulongMax);
            && (!ok ==> d.Failed? || |old(out.received)| + |d.body| > out.limit)
            && (ok ==> old(out.received) <= out.received &&
                       d == Behind(out.received[|old(out.received)|..], Trailer(reader.strm.input, reader.strm.broken)))
  {
    hide ChunksFrom, StrToUl, NextSize, Trailer, LineReader.Valid;
    var strm := reader.strm;
    ghost var all := ChunksFrom(reader.line, strm.input, strm.broken, ulongMax);
    ghost var body, left := "", all;
    while true
      invariant reader.Valid() && out.Valid()
      invariant left == ChunksFrom(reader.line, strm.input, strm.broken, ulongMax)
      invariant all == Behind(body, left)
      invariant out.received == old(out.received) + body
      decreases |strm.input|
    {
      ghost var s := strm.input;
      var text := reader.Text();
      var size := StrToUl(text, ulongMax);
      ChunksEnd(text, s, strm.broken, ulongMax);
      if size.NoDigits? || size.value == ulongMax {
        return false;
      }
      if size.value == 0 {
        return true;
      }
      ghost var l := NextSize(s, size.value, strm.broken);
      ChunksStep(body, text, size.value, s, l, strm.broken, ulongMax);
      var next := ReadChunk(reader, size.value, out);
      if !next {
        return false;
      }
      body := body + s[..size.value];
      left := ChunksFrom(reader.line, strm.input, strm.broken, ulongMax);
    }
  }
}
