/** Big-endian words and the packet types both ends exchange. */
module Wire {

  type Byte = b: int | 0 <= b < 256

  const MTU := 1500
  const TWO31 := 0x8000_0000
  const TWO32 := 0x1_0000_0000
  const SRT_TYPE_ACK := 0x8002
  const SRT_TYPE_NAK := 0x8003
  const SRTLA_TYPE_KEEPALIVE := 0x9000
  const SRTLA_TYPE_ACK := 0x9100
  const SRTLA_TYPE_REG2 := 0x9201
  const SRTLA_TYPE_REG3 := 0x9202
  const SRTLA_TYPE_REG_NGP := 0x9211

  type Word = w: int | 0 <= w < TWO32

  /** A 32-bit value in network order. */
  function Be32(w: Word): (s: seq<Byte>)
    ensures |s| == 4
  {
    [w / 0x100_0000, w / 0x1_0000 % 0x100, w / 0x100 % 0x100, w % 0x100]
  }

  function FromBytes(a: int, b: int, c: int, d: int): int {
    0x100_0000 * a + 0x1_0000 * b + 0x100 * c + d
  }

  /** The i-th word of a buffer, back in host order. */
  function WordAt(buf: seq<Byte>, i: nat): Word
    requires 4 * i + 4 <= |buf|
  {
    FromBytes(buf[4 * i], buf[4 * i + 1], buf[4 * i + 2], buf[4 * i + 3])
  }

  /** The buffer read as an array of words. */
  function WordsOf(buf: seq<Byte>): (ws: seq<Word>)
    ensures |ws| == |buf| / 4
  {
    seq(|buf| / 4, i requires 0 <= i < |buf| / 4 => WordAt(buf, i))
  }

  function TypeOf(buf: seq<Byte>, n: nat): int
    requires n <= |buf|
  {
    if n < 2 then 0 else 0x100 * (buf[0] as int) + buf[1]
  }

  function Signed32(w: Word): int {
    if w < TWO31 then w else w - TWO32
  }

  function Words(ws: seq<Word>): (s: seq<Byte>)
    ensures |s| == 4 * |ws|
  {
    if ws == [] then [] else Words(ws[..|ws| - 1]) + Be32(ws[|ws| - 1])
  }

  lemma DividedTwice(w: nat)
    ensures w / 0x1_0000 == w / 0x100 / 0x100
  {
  }

  lemma DividedThrice(w: nat)
    ensures w / 0x100_0000 == w / 0x1_0000 / 0x100
  {
  }

  lemma BytesOf(w: Word)
    ensures FromBytes(Be32(w)[0], Be32(w)[1], Be32(w)[2], Be32(w)[3]) == w
  {
    DividedTwice(w);
    DividedThrice(w);
    var low, mid := w / 0x100, w / 0x1_0000;
    assert w == 0x100 * low + w % 0x100;
    assert low == 0x100 * mid + low % 0x100;
    assert mid == 0x100 * (w / 0x100_0000) + mid % 0x100;
  }

  lemma {:induction false} Be32ReadsBack(before: seq<Byte>, w: Word, rest: seq<Byte>)
    requires |before| % 4 == 0
    ensures WordAt(before + Be32(w) + rest, |before| / 4) == w
  {
    var bytes := Be32(w);
    var buf := before + bytes + rest;
    var i := |before|;
    BytesOf(w);
    hide Be32, FromBytes;
    assert buf[i] == bytes[0] && buf[i + 1] == bytes[1];
    assert buf[i + 2] == bytes[2] && buf[i + 3] == bytes[3];
  }

  /** Packing words and reading them back, with anything after them. */
  lemma {:induction false} WordsReadBack(ws: seq<Word>, rest: seq<Byte>, i: nat)
    requires i < |ws|
    ensures WordAt(Words(ws) + rest, i) == ws[i]
  {
    var k := |ws| - 1;
    var front := Words(ws[..k]);
    assert Words(ws) + rest == front + (Be32(ws[k]) + rest) == front + Be32(ws[k]) + rest;
    if i == k {
      Be32ReadsBack(front, ws[k], rest);
    } else {
      WordsReadBack(ws[..k], Be32(ws[k]) + rest, i);
    }
  }
}
