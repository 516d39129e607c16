/** The sender's link code in its own form: connections updated in place,
    proved to follow the functions of Links. */
module LinkSender {
  import opened Wire
  import opened Links
  import opened LossLists

  const HOUSEKEEPING_MS := 1000

  /** The numbers in the first n words of an SRTLA ACK. */
  function AckedNumbers(words: seq<Word>, n: nat): (acks: seq<int>)
    requires n <= |words|
    ensures |acks| == if n < 2 then 0 else n - 1
  {
    if n < 2 then [] else AckedNumbers(words, n - 1) + [Signed32(words[n - 1])]
  }

  /** What a packet of n bytes means to the links. */
  function MessageIn(buf: seq<Byte>, n: nat): Message
    requires n <= MTU && |buf| == MTU + 4
  {
    var packetType, words := TypeOf(buf, n), WordsOf(buf);
    if packetType == SRT_TYPE_ACK then SrtAckOf(Signed32(words[4]))
    else if packetType == SRT_TYPE_NAK then NakOf(Lost(words, 4, n / 4))
    else if packetType == SRTLA_TYPE_ACK then SrtlaAckOf(AckedNumbers(words, n / 4))
    else if packetType == SRTLA_TYPE_REG3 then Reg3
    else Other
  }

  lemma {:induction false} NaksAppend(ls: seq<Link>, lost: seq<int>, p: int)
    requires AllValid(ls)
    ensures Naks(ls, lost + [p]) == Nak(Naks(ls, lost), p)
  {
    assert (lost + [p])[..|lost|] == lost;
  }

  lemma {:induction false} NaksConcat(ls: seq<Link>, a: seq<int>, b: seq<int>)
    requires AllValid(ls)
    ensures Naks(ls, a + b) == Naks(Naks(ls, a), b)
  {
    if b == [] {
      assert a + b == a;
    } else {
      var k := |b| - 1;
      assert a + b == (a + b[..k]) + [b[k]];
      NaksAppend(ls, a + b[..k], b[k]);
      NaksConcat(ls, a, b[..k]);
    }
  }

  lemma {:induction false} EntryFirst(ls: seq<Link>, words: seq<Word>, i: nat, n: nat)
    requires AllValid(ls) && i < n < |words|
    ensures Naks(ls, Lost(words, i, n)) ==
            Naks(Naks(ls, Entry(words, i)), Lost(words, i + Width(words, i), n))
  {
    NaksConcat(ls, Entry(words, i), Lost(words, i + Width(words, i), n));
  }

  lemma NothingLost(ls: seq<Link>, words: seq<Word>, i: nat, n: nat)
    requires AllValid(ls) && n <= i && n < |words|
    ensures Naks(ls, Lost(words, i, n)) == ls
  {
  }

  lemma {:induction false} AcksAppend(ls: seq<Link>, acks: seq<int>, p: int)
    requires AllValid(ls)
    ensures SrtlaAcks(ls, acks + [p]) == SrtlaAck(SrtlaAcks(ls, acks), p)
  {
    assert (acks + [p])[..|acks|] == acks;
  }

  /** The entries a scan from below idx has visited before step k, the others
      masked. */
  ghost function Visited(log: seq<int>, idx: nat, k: nat, ack: int): (r: seq<int>)
    requires |log| == LOG_SIZE && idx < LOG_SIZE
    ensures |r| == LOG_SIZE
  {
    seq(LOG_SIZE, j requires 0 <= j < LOG_SIZE =>
      if StepOf(idx, j) < k then log[j] else ack - 1)
  }

  lemma {:induction false} VisitOne(log: seq<int>, idx: nat, k: nat, ack: int)
    requires |log| == LOG_SIZE && idx < LOG_SIZE && 1 <= k < LOG_SIZE
    ensures CountGe(Visited(log, idx, k + 1, ack), ack) ==
            CountGe(Visited(log, idx, k, ack), ack) + (if log[Slot(idx, k)] >= ack then 1 else 0)
  {
    var i := Slot(idx, k);
    CountUpdate(Visited(log, idx, k, ack), i, log[i], ack);
    assert Visited(log, idx, k + 1, ack) == Visited(log, idx, k, ack)[i := log[i]];
  }

  lemma {:induction false} VisitedEnds(log: seq<int>, idx: nat, ack: int)
    requires |log| == LOG_SIZE && idx < LOG_SIZE
    ensures CountGe(Visited(log, idx, 1, ack), ack) == 0
    ensures CountGe(Visited(log, idx, LOG_SIZE, ack), ack) == Searched(log, idx, ack)
  {
    CountNone(Visited(log, idx, 1, ack), ack);
    assert Visited(log, idx, LOG_SIZE, ack) == log[idx := ack - 1];
  }

  /** The log after a clearing scan from below idx has reached step k. */
  ghost function ClearedSoFar(log: seq<int>, idx: nat, k: nat, ack: int): (r: seq<int>)
    requires |log| == LOG_SIZE && idx < LOG_SIZE
    ensures |r| == LOG_SIZE
  {
    seq(LOG_SIZE, j requires 0 <= j < LOG_SIZE =>
      if StepOf(idx, j) < k && log[j] < ack then CLEARED else log[j])
  }

  lemma {:induction false} ClearOne(log: seq<int>, idx: nat, k: nat, ack: int)
    requires |log| == LOG_SIZE && idx < LOG_SIZE && 1 <= k < LOG_SIZE
    ensures var i, before := Slot(idx, k), ClearedSoFar(log, idx, k, ack);
            && before[i] == log[i]
            && ClearedSoFar(log, idx, k + 1, ack) == if log[i] < ack then before[i := CLEARED] else before
  {
  }

  lemma {:induction false} ClearedEnds(log: seq<int>, idx: nat, ack: int)
    requires |log| == LOG_SIZE && idx < LOG_SIZE
    ensures ClearedSoFar(log, idx, 1, ack) == log
    ensures ClearedSoFar(log, idx, LOG_SIZE, ack) == ClearedBelow(log, idx, ack)
  {
  }

  class Conn {
    var lastRcvd: int
    var lastSent: int
    var inFlight: int
    var window: int
    var pktIdx: nat
    const pktLog: array<int>

    ghost predicate Valid()
      reads this, pktLog
    {
      pktLog.Length == LOG_SIZE && pktIdx < LOG_SIZE && inFlight >= 0 && window >= 0
    }

    ghost function State(): (l: Link)
      reads this, pktLog
      requires Valid()
      ensures Links.Valid(l)
    {
      Link(pktLog[..], pktIdx, inFlight, window, lastRcvd)
    }

    constructor ()
      ensures Valid() && State() == NewLink() && fresh(pktLog)
    {
      lastRcvd, lastSent, inFlight, window, pktIdx := 0, 0, 0, WINDOW_START, 0;
      pktLog := new int[LOG_SIZE](_ => 0);
    }

    method RegPkt(packet: int)
      requires Valid()
      modifies this`pktIdx, this`inFlight, pktLog
      ensures Valid() && State() == Logged(old(State()), packet)
    {
      pktLog[pktIdx] := packet;
      pktIdx := (pktIdx + 1) % LOG_SIZE;
      inFlight := inFlight + 1;
    }

    /** The backward scan both acknowledgement handlers share. */
    method FindPacket(packet: int) returns (slot: int)
      requires Valid()
      ensures slot == Find(State(), packet)
    {
      ghost var k := 1;
      var i := Below(pktIdx);
      while i != pktIdx
        invariant 1 <= k <= LOG_SIZE && i == Slot(pktIdx, k)
        invariant Find(State(), packet) == FindFrom(pktLog[..], pktIdx, packet, k)
        decreases LOG_SIZE - k
      {
        if pktLog[i] == packet {
          return i;
        }
        i := Below(i);
        k := k + 1;
      }
      return -1;
    }

    method RegisterSrtAck(ack: int)
      requires Valid()
      modifies this`inFlight, pktLog
      ensures Valid() && State() == SrtAcked(old(State()), ack)
    {
      ghost var log := pktLog[..];
      var count := 0;
      ghost var k := 1;
      var i := Below(pktIdx);
      VisitedEnds(log, pktIdx, ack);
      ClearedEnds(log, pktIdx, ack);
      while i != pktIdx
        invariant 1 <= k <= LOG_SIZE && i == Slot(pktIdx, k)
        invariant pktLog[..] == ClearedSoFar(log, pktIdx, k, ack)
        invariant count == CountGe(Visited(log, pktIdx, k, ack), ack)
        decreases LOG_SIZE - k
      {
        VisitOne(log, pktIdx, k, ack);
        ClearOne(log, pktIdx, k, ack);
        if pktLog[i] < ack {
          pktLog[i] := CLEARED;
        } else {
          count := count + 1;
        }
        i := Below(i);
        k := k + 1;
      }
      inFlight := count;
    }

    method Charge(slot: nat)
      requires Valid() && slot < LOG_SIZE
      modifies this`window, pktLog
      ensures Valid() && State() == Charged(old(State()), slot)
    {
      pktLog[slot] := CLEARED;
      window := window - WINDOW_DECR;
      window := Max(window, WINDOW_FLOOR);
    }

    method Credit(slot: nat)
      requires Valid() && slot < LOG_SIZE
      modifies this`window, this`inFlight, pktLog
      ensures Valid() && State() == Credited(old(State()), slot)
    {
      if inFlight > 0 {
        inFlight := inFlight - 1;
      }
      pktLog[slot] := CLEARED;
      if inFlight * WINDOW_MULT > window {
        window := window + WINDOW_INCR - 1;
      }
    }

    method Grow()
      requires Valid()
      modifies this`window
      ensures Valid() && State() == Grown(old(State()))
    {
      if lastRcvd != 0 {
        window := window + 1;
        window := Min(window, WINDOW_CEILING);
      }
    }

    /** Reset of a failed connection, when housekeeping first notices. */
    method Reset()
      requires Valid()
      modifies this, pktLog
      ensures Valid()
      ensures State() == Link(seq(LOG_SIZE, _ => CLEARED), old(pktIdx), 0, WINDOW_FLOOR, 0)
    {
      lastRcvd, lastSent, window, inFlight := 0, 0, WINDOW_FLOOR, 0;
      for i := 0 to LOG_SIZE
        invariant forall j :: 0 <= j < i ==> pktLog[j] == CLEARED
        invariant Valid() && lastRcvd == 0 && window == WINDOW_FLOOR && inFlight == 0
        invariant pktIdx == old(pktIdx)
      {
        pktLog[i] := CLEARED;
      }
      assert pktLog[..] == seq(LOG_SIZE, _ => CLEARED);
    }
  }

  class Sender {
    const conns: seq<Conn>
    var lastHousekeeping: int
    var activeConnections: nat
    ghost var links: seq<Link>  // the connections as values

    /** The connections and their logs. */
    ghost function Owned(): (r: set<object>)
      ensures this !in r
    {
      (set i | 0 <= i < |conns| :: conns[i] as object) + (set i | 0 <= i < |conns| :: conns[i].pktLog as object)
    }

    ghost predicate Valid()
      reads this`links, Owned()
      ensures Valid() ==> |links| == |conns| && AllValid(links)
    {
      && |links| == |conns| && AllValid(links)
      && (forall i :: 0 <= i < |conns| ==> conns[i].Valid() && conns[i].State() == links[i])
      && (forall i, j :: 0 <= i < |conns| && 0 <= j < |conns| && i != j ==>
            conns[i] != conns[j] && conns[i].pktLog != conns[j].pktLog)
    }

    /** The connections the address file lists; the file is read once. */
    constructor (conns: seq<Conn>)
      requires forall i :: 0 <= i < |conns| ==> conns[i].Valid() && conns[i].State() == NewLink()
      requires forall i, j :: 0 <= i < |conns| && 0 <= j < |conns| && i != j ==>
        conns[i] != conns[j] && conns[i].pktLog != conns[j].pktLog
      ensures Valid() && this.conns == conns && links == seq(|conns|, _ => NewLink())
    {
      this.conns := conns;
      lastHousekeeping, activeConnections := 0, 0;
      links := seq(|conns|, _ => NewLink());
    }

    /** Picks the link for the next packet. */
    method SelectConn(t: int) returns (best: int)
      requires Valid()
      modifies (set i | 0 <= i < |conns| :: conns[i])`lastSent
      ensures Valid() && best == Select(links, t) && links == old(links)
      ensures best >= 0 ==> conns[best].lastSent == t
    {
      best := -1;
      var maxScore := -1;
      for i := 0 to |conns|
        invariant best == SelectAmong(links, t, i)
        invariant maxScore == if best == -1 then -1 else Score(links[best])
      {
        var c := conns[i];
        if !(c.lastRcvd + CONN_TIMEOUT < t) {
          var score := c.window / (c.inFlight + 1);
          if score > maxScore {
            best, maxScore := i, score;
          }
        }
      }
      if best >= 0 {
        conns[best].lastSent := t;
      }
    }

    method LogAt(k: nat, packet: int)
      requires Valid() && k < |conns|
      modifies this`links, Owned()
      ensures Valid() && links == old(links)[k := Logged(old(links)[k], packet)]
    {
      conns[k].RegPkt(packet);
      links := links[k := conns[k].State()];
    }

    method SetLastRcvd(k: nat, ts: int)
      requires Valid() && k < |conns|
      modifies this`links, Owned()
      ensures Valid() && links == old(links)[k := old(links)[k].(lastRcvd := ts)]
    {
      conns[k].lastRcvd := ts;
      links := links[k := conns[k].State()];
    }

    /** Forwards one packet from the SRT caller; `sent` is the outcome of sendto. */
    method HandleSrtData(t: int, sn: int, sent: bool)
      requires Valid()
      modifies this`links, Owned()
      ensures Valid() && links == SrtData(old(links), t, sn, sent)
    {
      var i := SelectConn(t);
      if i >= 0 {
        if !sent {
          SetLastRcvd(i, 1);
        } else if sn >= 0 {
          LogAt(i, sn);
        }
      }
    }

    method FindAt(k: nat, packet: int) returns (slot: int)
      requires Valid() && k < |conns|
      ensures slot == Find(links[k], packet)
    {
      slot := conns[k].FindPacket(packet);
    }

    method SrtAckAt(k: nat, ack: int)
      requires Valid() && k < |conns|
      modifies this`links, Owned()
      ensures Valid() && links == old(links)[k := SrtAcked(old(links)[k], ack)]
    {
      conns[k].RegisterSrtAck(ack);
      links := links[k := conns[k].State()];
    }

    method ChargeAt(k: nat, slot: nat)
      requires Valid() && k < |conns| && slot < LOG_SIZE
      modifies this`links, Owned()
      ensures Valid()
      ensures links == old(links)[k := Charged(old(links)[k], slot)]
    {
      conns[k].Charge(slot);
      links := links[k := conns[k].State()];
    }

    method RegisterNak(packet: int)
      requires Valid()
      modifies this`links, Owned()
      ensures Valid() && links == Nak(old(links), packet)
    {
      hide Valid, Find, Charged;
      for k := 0 to |conns|
        invariant Valid() && links == old(links)
        invariant Holder(links, packet) == HolderFrom(links, packet, k)
      {
        var slot := FindAt(k, packet);
        if slot >= 0 {
          ChargeAt(k, slot);
          return;
        }
      }
    }

    /** One link's turn in RegisterSrtlaAck. */
    method AckOne(k: nat, ack: int, found: bool) returns (hit: bool)
      requires Valid() && k < |conns|
      modifies this`links, Owned()
      ensures Valid()
      ensures hit <==> !found && Find(old(links)[k], ack) >= 0
      ensures links == old(links)[k := AckedAt(old(links)[k], ack, hit)]
    {
      var c := conns[k];
      hit := false;
      if !found {
        var slot := c.FindPacket(ack);
        if slot >= 0 {
          hit := true;
          c.Credit(slot);
        }
      }
      c.Grow();
      links := links[k := c.State()];
    }

    method RegisterSrtlaAck(ack: int)
      requires Valid()
      modifies this`links, Owned()
      ensures Valid() && links == SrtlaAck(old(links), ack)
    {
      hide Valid, Find, AckedAt;
      var found := false;
      ghost var was, j := links, Holder(links, ack);
      for k := 0 to |conns|
        invariant Valid() && |was| == |links|
        invariant found <==> 0 <= j < k
        invariant !found ==> j == HolderFrom(was, ack, k)
        invariant forall i :: 0 <= i < k ==> links[i] == AckedAt(was[i], ack, i == j)
        invariant forall i :: k <= i < |was| ==> links[i] == was[i]
      {
        var hit := AckOne(k, ack, found);
        found := found || hit;
      }
    }

    method RegisterSrtAck(ack: int)
      requires Valid()
      modifies this`links, Owned()
      ensures Valid() && links == SrtAck(old(links), ack)
    {
      hide Valid, SrtAcked;
      ghost var was := links;
      for k := 0 to |conns|
        invariant Valid() && |was| == |links|
        invariant forall i :: 0 <= i < k ==> links[i] == SrtAcked(was[i], ack)
        invariant forall i :: k <= i < |was| ==> links[i] == was[i]
      {
        SrtAckAt(k, ack);
      }
    }

    /** Expands the loss list of a NAK, charging one packet at a time. */
    method HandleNak(ids: seq<Word>, n: nat)
      requires Valid() && n < |ids| && Expandable(ids, 4, n)
      modifies this`links, Owned()
      ensures Valid() && links == Naks(old(links), Lost(ids, 4, n))
    {
      hide Valid, Naks, Lost, Entry;
      var i := 4;
      while i < n
        invariant Valid()
        invariant Naks(links, Lost(ids, i, n)) == Naks(old(links), Lost(ids, 4, n))
        decreases n - i
      {
        EntryFirst(links, ids, i, n);
        HandleLoss(ids, i);
        i := i + Width(ids, i);
      }
      NothingLost(links, ids, i, n);
    }

    /** One entry of the loss list. */
    method HandleLoss(ids: seq<Word>, i: nat)
      requires Valid() && i + 1 < |ids|
      modifies this`links, Owned()
      ensures Valid() && links == Naks(old(links), Entry(ids, i))
    {
      hide Valid, Nak;
      if Flagged(ids[i]) {
        ChargeRange(ids[i] - TWO31, ids[i + 1]);
      } else {
        NaksAppend(links, [], ids[i]);
        RegisterNak(ids[i]);
      }
    }

    method ChargeRange(first: int, last: int)
      requires Valid()
      modifies this`links, Owned()
      ensures Valid() && links == Naks(old(links), Through(first, last))
    {
      hide Valid, Nak;
      var lost := first;
      while lost <= last
        invariant first <= lost && (lost <= last + 1 || lost == first)
        invariant Valid() && links == Naks(old(links), Through(first, lost - 1))
      {
        NaksAppend(old(links), Through(first, lost - 1), lost);
        RegisterNak(lost);
        lost := lost + 1;
      }
    }

    /** Credits the numbers of an SRTLA ACK one by one. */
    method HandleSrtlaAck(acks: seq<Word>, n: nat)
      requires Valid() && n <= |acks|
      modifies this`links, Owned()
      ensures Valid() && links == SrtlaAcks(old(links), AckedNumbers(acks, n))
    {
      hide Valid, SrtlaAck;
      ghost var was := links;
      var i := 1;
      while i < n
        invariant 1 <= i && (i <= n || i == 1)
        invariant Valid() && links == SrtlaAcks(was, if i <= n then AckedNumbers(acks, i) else [])
      {
        RegisterSrtlaAck(Signed32(acks[i]));
        AcksAppend(was, AckedNumbers(acks, i), Signed32(acks[i]));
        i := i + 1;
      }
    }

    /** A packet from the receiver on connection k.  Packets that reject or grant a
        group leave the links alone, so that they cannot keep a failed connection
        marked active.  The result says whether the packet is passed on to the
        SRT caller. */
    method HandleSrtlaData(k: nat, ts: int, buf: seq<Byte>, n: nat) returns (forward: bool)
      requires Valid() && k < |conns| && 0 < n <= MTU && |buf| == MTU + 4
      requires TypeOf(buf, n) == SRT_TYPE_NAK ==> Expandable(WordsOf(buf), 4, n / 4)
      modifies this`links, this`activeConnections, Owned()
      ensures Valid()
      ensures links == if TypeOf(buf, n) in {SRTLA_TYPE_REG_NGP, SRTLA_TYPE_REG2} then old(links)
                       else Received(old(links), k, ts, MessageIn(buf, n))
      ensures forward <==> TypeOf(buf, n) !in {SRTLA_TYPE_REG_NGP, SRTLA_TYPE_REG2, SRTLA_TYPE_ACK,
                                               SRTLA_TYPE_KEEPALIVE, SRTLA_TYPE_REG3}
      ensures activeConnections == old(activeConnections) + if TypeOf(buf, n) == SRTLA_TYPE_REG3 then 1 else 0
    {
      hide Valid, Lost, AckedNumbers, Naks, SrtlaAcks, SrtAck, WordsOf, TypeOf;
      var packetType, words := TypeOf(buf, n), WordsOf(buf);
      if packetType == SRTLA_TYPE_REG_NGP || packetType == SRTLA_TYPE_REG2 {
        return false;
      }
      SetLastRcvd(k, ts);
      if packetType == SRT_TYPE_ACK {
        RegisterSrtAck(Signed32(words[4]));
      } else if packetType == SRT_TYPE_NAK {
        HandleNak(words, n / 4);
      } else if packetType == SRTLA_TYPE_ACK {
        HandleSrtlaAck(words, n / 4);
        return false;
      } else if packetType == SRTLA_TYPE_KEEPALIVE {
        return false;
      } else if packetType == SRTLA_TYPE_REG3 {
        activeConnections := activeConnections + 1;
        return false;
      }
      return true;
    }

    /** The periodic pass over all connections at time ms; those without an open
        socket are skipped.  It runs at most once a second and leaves the number
        of connections that are not timed out. */
    method ConnectionHousekeeping(ms: int, usable: set<nat>)
      requires Valid()
      modifies this, Owned()
      ensures Valid()
      ensures var throttled := old(lastHousekeeping) + HOUSEKEEPING_MS > ms;
              && lastHousekeeping == (if throttled then old(lastHousekeeping) else ms)
              && links == (if throttled then old(links) else Housekeeping(old(links), ms / 1000, usable))
              && activeConnections == (if throttled then old(activeConnections)
                                       else Active(old(links), ms / 1000, usable))
    {
      hide Valid, Housekept;
      if lastHousekeeping + HOUSEKEEPING_MS > ms {
        return;
      }
      HousekeepAll(ms / 1000, usable);
      lastHousekeeping := ms;
    }

    method HousekeepAll(time: int, usable: set<nat>)
      requires Valid()
      modifies this`links, this`activeConnections, Owned()
      ensures Valid() && links == Housekeeping(old(links), time, usable)
      ensures activeConnections == Active(old(links), time, usable)
    {
      hide Valid, Housekept, TimedOut;
      activeConnections := 0;
      ghost var was := links;
      for k := 0 to |conns|
        invariant Valid() && |was| == |links|
        invariant forall i :: 0 <= i < k ==>
          links[i] == if i in usable then Housekept(was[i], time) else was[i]
        invariant forall i :: k <= i < |was| ==> links[i] == was[i]
        invariant activeConnections == Active(was[..k], time, usable)
      {
        ActiveGrows(was, k, time, usable);
        if k in usable {
          HousekeepOne(k, time);
        }
      }
      assert was[..|conns|] == was;
    }

    method HousekeepOne(k: nat, time: int)
      requires Valid() && k < |conns|
      modifies this`links, this`activeConnections, Owned()
      ensures Valid() && links == old(links)[k := Housekept(old(links)[k], time)]
      ensures activeConnections == old(activeConnections) + if TimedOut(old(links)[k], time) then 0 else 1
    {
      var c := conns[k];
      if c.lastRcvd + CONN_TIMEOUT < time {
        if c.lastRcvd > 0 {
          c.Reset();
          links := links[k := c.State()];
        }
      } else {
        activeConnections := activeConnections + 1;
      }
    }
  }

  /** How many links with an open socket are not timed out. */
  function Active(ls: seq<Link>, t: int, usable: set<nat>): nat {
    if ls == [] then 0
    else
      var k := |ls| - 1;
      Active(ls[..k], t, usable) + if k in usable && !TimedOut(ls[k], t) then 1 else 0
  }

  lemma ActiveGrows(ls: seq<Link>, k: nat, t: int, usable: set<nat>)
    requires k < |ls|
    ensures Active(ls[..k + 1], t, usable) ==
            Active(ls[..k], t, usable) + if k in usable && !TimedOut(ls[k], t) then 1 else 0
  {
    assert ls[..k + 1][..k] == ls[..k];
  }
}
