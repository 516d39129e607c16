/** SRTLA ACKs end to end: what the receiver batches on a link is what the
    sender reads out of the packets, in order and without gaps. */
module AckPath {
  import opened Wire
  import opened Receiver
  import opened Membership
  import LinkSender
  import Links

  /** Since addr last joined: the numbers of the data packets received from it
      and the batches sent back to it. */
  datatype Ledger = Ledger(heard: seq<Word>, batches: seq<seq<Word>>)

  function BatchesIn(replies: seq<Reply>): seq<seq<Word>> {
    if replies == [] then []
    else
      BatchesIn(replies[..|replies| - 1]) +
      (if replies[|replies| - 1].Acked? then [replies[|replies| - 1].numbers] else [])
  }

  predicate Member(s: State, addr: Addr) {
    |s.groups| == 1 && Has(s.groups[0].conns, addr)
  }

  /** A data packet from addr that the receiver logs. */
  predicate IsData(e: Event, addr: Addr) {
    e.DataFrom? && e.addr == addr && !e.keepalive && e.n >= SRT_MIN_LEN && e.sn >= 0
  }

  /** The event happens to a link that was not a member: the ledger starts over. */
  function Entered(s: State, l: Ledger, e: Event, ts: int, addr: Addr): Ledger
    requires Sane(e)
  {
    if !Member(s, addr) then Ledger([], [])
    else if e.DataFrom? && e.addr == addr then
      Ledger(l.heard + (if IsData(e, addr) then [e.sn] else []),
             l.batches + BatchesIn(Step(s, e, ts).1))
    else l
  }

  function Ledgers(es: seq<Timed>, addr: Addr): Ledger
    requires SaneRun(es)
  {
    if es == [] then Ledger([], [])
    else
      var k := |es| - 1;
      Entered(Run(es[..k]), Ledgers(es[..k], addr), es[k].e, es[k].ts, addr)
  }

  function Flat(batches: seq<seq<Word>>): seq<Word> {
    if batches == [] then [] else Flat(batches[..|batches| - 1]) + batches[|batches| - 1]
  }

  /** The member's pending log, empty for a stranger. */
  function Pending(s: State, addr: Addr): seq<Word>
    requires Member(s, addr)
  {
    s.groups[0].conns[ConnAt(s.groups[0].conns, addr)].log
  }

  predicate Exact(l: Ledger, pending: seq<Word>) {
    Flat(l.batches) + pending == l.heard && forall b :: 0 <= b < |l.batches| ==> |l.batches[b]| == ACK_INTERVAL
  }

  lemma {:induction false} FlatSnoc(batches: seq<seq<Word>>, b: seq<Word>)
    ensures Flat(batches + [b]) == Flat(batches) + b
  {
    assert (batches + [b])[..|batches|] == batches;
  }

  /** With distinct addresses, a member is the connection its address finds. */
  lemma {:induction false} TheMember(cs: seq<Conn>, x: Conn)
    requires DistinctAddrs(cs) && x in cs
    ensures Has(cs, x.addr) && cs[ConnAt(cs, x.addr)] == x
  {
    var i :| 0 <= i < |cs| && cs[i] == x;
    var at := ConnAt(cs, x.addr);
    assert cs[at].addr == cs[i].addr;
  }

  /** A connection carried over unchanged keeps its pending log. */
  lemma {:induction false} CarriedOver(s: State, s': State, addr: Addr)
    requires Inv(s) && Member(s', addr)
    requires |s.groups| == 1 && s'.groups[0].conns[ConnAt(s'.groups[0].conns, addr)] in s.groups[0].conns
    ensures Member(s, addr) && Pending(s', addr) == Pending(s, addr)
  {
    TheMember(s.groups[0].conns, s'.groups[0].conns[ConnAt(s'.groups[0].conns, addr)]);
  }

  /** What the pending log of addr becomes when e happens to state s. */
  function PendingNext(s: State, e: Event, addr: Addr): seq<Word>
    requires Sane(e)
  {
    if !Member(s, addr) then []
    else if IsData(e, addr) then Registered(s.groups[0].conns[ConnAt(s.groups[0].conns, addr)], e.sn).0.log
    else Pending(s, addr)
  }

  lemma {:induction false} ReplacedAt(cs: seq<Conn>, c: nat, x: Conn, addr: Addr)
    requires DistinctAddrs(cs) && c < |cs| && x.addr == cs[c].addr && Has(cs[c := x], addr)
    ensures var y := cs[c := x][ConnAt(cs[c := x], addr)];
            if addr == x.addr then y == x && ConnAt(cs, addr) == c && Has(cs, addr) else y in cs
  {
    var at := ConnAt(cs[c := x], addr);
    if addr == x.addr {
      assert cs[c := x][c].addr == addr;
      assert cs[at].addr == cs[c].addr;
      TheMember(cs, cs[c]);
      var at' := ConnAt(cs, addr);
      assert cs[at'].addr == cs[c].addr;
    }
  }

  lemma {:induction false} DataPending(s: State, e: Event, ts: int, addr: Addr)
    requires Inv(s) && Sane(e) && e.DataFrom? && Member(Step(s, e, ts).0, addr)
    ensures Pending(Step(s, e, ts).0, addr) == PendingNext(s, e, addr)
  {
    var s' := Step(s, e, ts).0;
    var f := FindByAddr(s.groups, e.addr);
    if f.InConn? {
      var cs := s.groups[0].conns;
      var c := cs[f.c].(lastRcvd := ts);
      var c' := if !e.keepalive && e.n >= SRT_MIN_LEN && e.sn >= 0 then Registered(c, e.sn).0 else c;
      assert s'.groups[0].conns == cs[f.c := c'];
      ReplacedAt(cs, f.c, c', addr);
      if addr != e.addr {
        CarriedOver(s, s', addr);
      }
    }
  }

  lemma {:induction false} JoinedMember(s: State, who: Addr, ts: int, x: Conn)
    requires Inv(s) && |s.groups| == 1 && x in Joined(s, 0, who, ts).0.groups[0].conns
    ensures if x.addr != who then x in s.groups[0].conns
            else x.log == if Member(s, who) then Pending(s, who) else []
  {
    var cs := s.groups[0].conns;
    var f := FindByAddr(s.groups, who);
    var joined := Joined(s, 0, who, ts).0.groups[0].conns;
    var i :| 0 <= i < |joined| && joined[i] == x;
    if f.InConn? {
      assert joined == cs[f.c := cs[f.c].(lastRcvd := ts)];
      assert i != f.c ==> cs[i] == x && cs[f.c].addr == who;
    } else {
      assert joined == [Conn(who, ts, [])] + cs;
      assert i > 0 ==> cs[i - 1] == x;
    }
  }

  lemma {:induction false} JoinPending(s: State, e: Event, ts: int, addr: Addr)
    requires Inv(s) && e.Reg2From? && Member(Step(s, e, ts).0, addr)
    ensures Pending(Step(s, e, ts).0, addr) == PendingNext(s, e, addr)
  {
    var s' := Step(s, e, ts).0;
    if s' != s {
      var cs' := s'.groups[0].conns;
      var x := cs'[ConnAt(cs', addr)];
      assert x in cs';
      var (s1, c) := Joined(s, 0, e.addr, ts);
      var joined := s1.groups[0].conns;
      assert cs' == if e.sent then joined else joined[c + 1..];
      assert x in joined;
      JoinedMember(s, e.addr, ts, x);
      if addr != e.addr {
        CarriedOver(s, s', addr);
      }
    }
  }

  lemma {:induction false} StepPending(s: State, e: Event, ts: int, addr: Addr)
    requires Inv(s) && Sane(e) && Member(Step(s, e, ts).0, addr)
    ensures Pending(Step(s, e, ts).0, addr) == PendingNext(s, e, addr)
  {
    var s' := Step(s, e, ts).0;
    match e
    case Reg1From(from, id, draws, sent) =>
      if s.count < MAX_GROUPS {
        GroupRegClosedForm(s, from, id, ts, draws, sent);
      }
    case Reg2From(_, _, _, _) => JoinPending(s, e, ts, addr);
    case DataFrom(_, _, _, _, _) => DataPending(s, e, ts, addr);
    case ServerGone(_) =>
    case FatalReply(_) => CarriedOver(s, s', addr);
    case Tick =>
      if s' != s {
        assert LiveGroups(s.groups[1..], ts) == [];
        assert s'.groups[0].conns == LiveConns(s.groups[0].conns, ts);
        assert s'.groups[0].conns[ConnAt(s'.groups[0].conns, addr)] in s'.groups[0].conns;
        CarriedOver(s, s', addr);
      }
  }

  lemma {:induction false} DataExact(s: State, l: Ledger, e: Event, ts: int, addr: Addr)
    requires Inv(s) && Sane(e) && e.DataFrom? && e.addr == addr && Member(s, addr)
    requires Exact(l, Pending(s, addr))
    ensures Exact(Entered(s, l, e, ts, addr), PendingNext(s, e, addr))
  {
    var out := Step(s, e, ts).1;
    var f := FindByAddr(s.groups, addr);
    assert f == InConn(0, ConnAt(s.groups[0].conns, addr));
    var log := Pending(s, addr);
    if IsData(e, addr) {
      var c := s.groups[0].conns[f.c].(lastRcvd := ts);
      assert out == Registered(c, e.sn).1;
      assert Flat(l.batches) + (log + [e.sn]) == l.heard + [e.sn];
      if |log| + 1 == ACK_INTERVAL {
        assert out == [Acked(log + [e.sn])];
        assert out[..0] == [];
        assert BatchesIn(out) == [log + [e.sn]];
        FlatSnoc(l.batches, log + [e.sn]);
      } else {
        assert out == [] && BatchesIn(out) == [];
        assert l.batches + [] == l.batches;
      }
    } else {
      assert out == [] || out == [Echo];
      if out == [Echo] {
        assert out[..0] == [];
      }
      assert BatchesIn(out) == [];
      assert l.batches + [] == l.batches && l.heard + [] == l.heard;
    }
  }

  /** For every member, the batches acknowledged on its link, in order, followed
      by the pending numbers are exactly the numbers received on the link since
      it joined; every batch holds ten and fewer than ten are pending. */
  lemma {:induction false} AcknowledgedInOrder(es: seq<Timed>, addr: Addr)
    requires SaneRun(es) && Member(Run(es), addr)
    ensures Exact(Ledgers(es, addr), Pending(Run(es), addr))
    ensures |Pending(Run(es), addr)| < ACK_INTERVAL
  {
    OneGroupDistinctMembers(es);
    if es != [] {
      var k := |es| - 1;
      var s, e := Run(es[..k]), es[k].e;
      OneGroupDistinctMembers(es[..k]);
      StepPending(s, e, es[k].ts, addr);
      if Member(s, addr) {
        AcknowledgedInOrder(es[..k], addr);
        if e.DataFrom? && e.addr == addr {
          DataExact(s, Ledgers(es[..k], addr), e, es[k].ts, addr);
        }
      }
    }
  }

  // ---- on the wire ----

  const ACK_PACKET_LEN := 44

  /** An SRTLA ACK as the receiver sends it: type word and ten numbers. */
  function AckPacket(numbers: seq<Word>): (p: seq<Byte>)
    ensures |p| == 4 * (|numbers| + 1)
  {
    Words([SRTLA_TYPE_ACK * 0x1_0000] + numbers)
  }

  lemma {:induction false} NumbersRead(words: seq<Word>, numbers: seq<Word>, n: nat)
    requires n <= |numbers| < |words|
    requires forall i :: 0 <= i < n ==> words[i + 1] == numbers[i] < TWO31
    ensures LinkSender.AckedNumbers(words, n + 1) == numbers[..n]
  {
    if n > 0 {
      NumbersRead(words, numbers, n - 1);
      assert numbers[..n] == numbers[..n - 1] + [numbers[n - 1]];
    }
  }

  /** The sender, whatever its receive buffer held before, reads the batch of an
      ACK packet back as the same ten sequence numbers. */
  lemma {:induction false} AckPacketReadsBack(numbers: seq<Word>, rest: seq<Byte>)
    requires |numbers| == ACK_INTERVAL && forall i :: 0 <= i < |numbers| ==> numbers[i] < TWO31
    requires |rest| == MTU + 4 - ACK_PACKET_LEN
    ensures LinkSender.MessageIn(AckPacket(numbers) + rest, ACK_PACKET_LEN) == Links.SrtlaAckOf(numbers)
  {
    var ws := [SRTLA_TYPE_ACK * 0x1_0000] + numbers;
    var buf := Words(ws) + rest;
    WordsReadBack(ws, rest, 0);
    assert TypeOf(buf, ACK_PACKET_LEN) == SRTLA_TYPE_ACK;
    forall i | 0 <= i < |numbers| ensures WordsOf(buf)[i + 1] == numbers[i] {
      WordsReadBack(ws, rest, i + 1);
    }
    NumbersRead(WordsOf(buf), numbers, ACK_INTERVAL);
    assert numbers[..ACK_INTERVAL] == numbers;
  }

  /** An SRT ACK: a 16-byte header of which the first two bytes are the type, the
      last acknowledged sequence number, and other fields. */
  function SrtAckPacket(header: seq<Word>, last: Word, fields: seq<Word>): seq<Byte>
    requires |header| == 4
  {
    Words(header + [last] + fields)
  }

  /** The sender reads the last acknowledged number out of an SRT ACK, whatever
      the other fields and its receive buffer hold. */
  lemma SrtAckReadsBack(header: seq<Word>, last: Word, fields: seq<Word>, rest: seq<Byte>)
    requires |header| == 4 && header[0] / 0x1_0000 == SRT_TYPE_ACK
    requires |SrtAckPacket(header, last, fields)| <= MTU
    requires |SrtAckPacket(header, last, fields) + rest| == MTU + 4
    ensures LinkSender.MessageIn(SrtAckPacket(header, last, fields) + rest, |SrtAckPacket(header, last, fields)|)
      == Links.SrtAckOf(Signed32(last))
  {
    var ws := header + [last] + fields;
    var buf := Words(ws) + rest;
    WordsReadBack(ws, rest, 0);
    WordsReadBack(ws, rest, 4);
    TypeIsTopHalf(buf, |Words(ws)|);
  }

  lemma TypeIsTopHalf(buf: seq<Byte>, n: nat)
    requires 4 <= n <= |buf|
    ensures TypeOf(buf, n) == WordAt(buf, 0) / 0x1_0000
  {
  }

  /** The numbers the sender credits when it handles the packets one by one. */
  function ReadBySender(batches: seq<seq<Word>>, rest: seq<Byte>): seq<int>
    requires forall b :: 0 <= b < |batches| ==> |batches[b]| == ACK_INTERVAL
    requires |rest| == MTU + 4 - ACK_PACKET_LEN
  {
    if batches == [] then []
    else
      var k := |batches| - 1;
      var m := LinkSender.MessageIn(AckPacket(batches[k]) + rest, ACK_PACKET_LEN);
      ReadBySender(batches[..k], rest) + if m.SrtlaAckOf? then m.acks else []
  }

  lemma {:induction false} SenderReadsFlat(batches: seq<seq<Word>>, rest: seq<Byte>)
    requires forall b :: 0 <= b < |batches| ==> |batches[b]| == ACK_INTERVAL
    requires |rest| == MTU + 4 - ACK_PACKET_LEN
    requires forall i :: 0 <= i < |Flat(batches)| ==> Flat(batches)[i] < TWO31
    ensures ReadBySender(batches, rest) == Flat(batches)
  {
    if batches != [] {
      var k := |batches| - 1;
      var front := Flat(batches[..k]);
      assert Flat(batches) == front + batches[k];
      assert forall i :: 0 <= i < |front| ==> front[i] == Flat(batches)[i];
      forall i | 0 <= i < ACK_INTERVAL ensures batches[k][i] < TWO31 {
        assert batches[k][i] == Flat(batches)[|front| + i];
      }
      SenderReadsFlat(batches[..k], rest);
      AckPacketReadsBack(batches[k], rest);
    }
  }

  lemma {:induction false} HeardAreSequenceNumbers(es: seq<Timed>, addr: Addr)
    requires SaneRun(es)
    ensures forall i :: 0 <= i < |Ledgers(es, addr).heard| ==> Ledgers(es, addr).heard[i] < TWO31
  {
    if es != [] {
      HeardAreSequenceNumbers(es[..|es| - 1], addr);
    }
  }

  /** End to end: what the sender reads out of the packets sent to a member, in
      order, followed by the pending numbers, is what was received from it. */
  lemma {:induction false} AckPathIsExact(es: seq<Timed>, addr: Addr, rest: seq<Byte>)
    requires SaneRun(es) && Member(Run(es), addr) && |rest| == MTU + 4 - ACK_PACKET_LEN
    ensures var l := Ledgers(es, addr);
            && (forall b :: 0 <= b < |l.batches| ==> |l.batches[b]| == ACK_INTERVAL)
            && ReadBySender(l.batches, rest) + Pending(Run(es), addr) == l.heard
  {
    var l := Ledgers(es, addr);
    AcknowledgedInOrder(es, addr);
    HeardAreSequenceNumbers(es, addr);
    assert forall i :: 0 <= i < |Flat(l.batches)| ==> Flat(l.batches)[i] == l.heard[i];
    SenderReadsFlat(l.batches, rest);
  }
}
