/** The loss list of an SRT NAK: single sequence numbers, and ranges written as
    a flagged first number followed by the last one. */
module LossLists {
  import opened Wire

  function Flagged(w: Word): bool { w >= TWO31 }

  /** The numbers first, first + 1, ..., last; none when last < first. */
  function Through(first: int, last: int): (r: seq<int>)
    decreases last - first
  {
    if last < first then [] else Through(first, last - 1) + [last]
  }

  /** The numbers the entry at word i stands for, and the words it takes. */
  function Entry(buf: seq<Word>, i: nat): seq<int>
    requires i + 1 < |buf|
  {
    if Flagged(buf[i]) then Through(buf[i] - TWO31, buf[i + 1]) else [buf[i]]
  }

  function Width(buf: seq<Word>, i: nat): (w: nat)
    requires i < |buf|
    ensures 1 <= w <= 2
  {
    if Flagged(buf[i]) then 2 else 1
  }

  /** Every range read from word i on ends below 2^31 - 1; beyond that the
      counter of the expansion loop overflows. */
  predicate Expandable(buf: seq<Word>, i: nat, n: nat)
    requires n < |buf|
    decreases n - i
  {
    i < n ==>
      (Flagged(buf[i]) ==> buf[i + 1] < TWO31 - 1) && Expandable(buf, i + Width(buf, i), n)
  }

  /** The lost numbers the words i, ..., n - 1 stand for, in order.  A flagged
      last word takes the word behind the packet as the end of its range. */
  function Lost(buf: seq<Word>, i: nat, n: nat): seq<int>
    requires n < |buf|
    decreases n - i
  {
    if i >= n then [] else Entry(buf, i) + Lost(buf, i + Width(buf, i), n)
  }

  // ---- the sender of the NAK ----

  datatype Loss = Single(id: int) | Range(first: int, last: int)

  predicate Proper(l: Loss) {
    match l
    case Single(id) => 0 <= id < TWO31 - 1
    case Range(first, last) => 0 <= first <= last < TWO31 - 1
  }

  predicate AllProper(ls: seq<Loss>) {
    forall k :: 0 <= k < |ls| ==> Proper(ls[k])
  }

  function Encoded(l: Loss): (ws: seq<Word>)
    requires Proper(l)
  {
    match l
    case Single(id) => [id]
    case Range(first, last) => [first + TWO31, last]
  }

  function EncodedAll(ls: seq<Loss>): (ws: seq<Word>)
    requires AllProper(ls)
  {
    if ls == [] then [] else Encoded(ls[0]) + EncodedAll(ls[1..])
  }

  function MeantBy(l: Loss): seq<int> {
    match l
    case Single(id) => [id]
    case Range(first, last) => Through(first, last)
  }

  function Meant(ls: seq<Loss>): seq<int> {
    if ls == [] then [] else MeantBy(ls[0]) + Meant(ls[1..])
  }

  /** A buffer whose words from i on are the given ones. */
  predicate Holds(buf: seq<Word>, i: nat, ws: seq<Word>) {
    i + |ws| < |buf| &&
    forall k :: 0 <= k < |ws| ==> buf[i + k] == ws[k]
  }

  lemma {:induction false} HoldsSplits(buf: seq<Word>, i: nat, a: seq<Word>, b: seq<Word>)
    requires Holds(buf, i, a + b)
    ensures Holds(buf, i, a) && Holds(buf, i + |a|, b)
  {
    forall k | 0 <= k < |a| ensures buf[i + k] == a[k] {
      assert buf[i + k] == (a + b)[k];
    }
    forall k | 0 <= k < |b| ensures buf[i + |a| + k] == b[k] {
      assert buf[i + (|a| + k)] == (a + b)[|a| + k];
    }
  }

  lemma {:induction false} EntryReadsBack(buf: seq<Word>, i: nat, l: Loss)
    requires Proper(l) && Holds(buf, i, Encoded(l))
    ensures Entry(buf, i) == MeantBy(l) && Width(buf, i) == |Encoded(l)|
    ensures Flagged(buf[i]) ==> buf[i + 1] < TWO31 - 1
  {
    assert buf[i + 0] == Encoded(l)[0];
    if l.Range? {
      assert buf[i + 1] == Encoded(l)[1];
    }
  }

  /** Reading back an encoded loss list yields exactly the numbers meant, in
      order, whatever stands behind the packet. */
  lemma {:induction false} LossListsReadBack(buf: seq<Word>, i: nat, n: nat, ls: seq<Loss>)
    requires AllProper(ls) && Holds(buf, i, EncodedAll(ls)) && n == i + |EncodedAll(ls)|
    ensures Lost(buf, i, n) == Meant(ls) && Expandable(buf, i, n)
    decreases |ls|
  {
    if ls != [] {
      var head, tail := Encoded(ls[0]), EncodedAll(ls[1..]);
      HoldsSplits(buf, i, head, tail);
      EntryReadsBack(buf, i, ls[0]);
      LossListsReadBack(buf, i + |head|, n, ls[1..]);
    }
  }

  /** The same for the packet as bytes: a 16-byte header, then the list. */
  lemma {:induction false} NakPacketsReadBack(header: seq<Word>, ls: seq<Loss>, rest: seq<Byte>)
    requires |header| == 4 && AllProper(ls) && |rest| >= 4
    ensures var words, n := WordsOf(Words(header + EncodedAll(ls)) + rest), 4 + |EncodedAll(ls)|;
            Lost(words, 4, n) == Meant(ls) && Expandable(words, 4, n)
  {
    hide Words, Lost, Meant, Expandable;
    var ws, n := header + EncodedAll(ls), 4 + |EncodedAll(ls)|;
    var words := WordsOf(Words(ws) + rest);
    assert |words| > |ws|;
    forall k | 0 <= k < |EncodedAll(ls)| ensures words[4 + k] == EncodedAll(ls)[k] {
      PackedWord(ws, rest, 4 + k);
      assert ws[4 + k] == EncodedAll(ls)[k];
    }
    LossListsReadBack(words, 4, n, ls);
  }

  lemma PackedWord(ws: seq<Word>, rest: seq<Byte>, i: nat)
    requires i < |ws|
    ensures |WordsOf(Words(ws) + rest)| >= |ws| && WordsOf(Words(ws) + rest)[i] == ws[i]
  {
    hide Words, FromBytes;
    WordsReadBack(ws, rest, i);
  }
}
