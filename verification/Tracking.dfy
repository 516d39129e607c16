/** Which packets a link can still answer for: those it logged, until they are
    reported, acknowledged, or overwritten 255 packets later. */
module Tracking {
  import opened Links
  import opened LinkRuns
  import opened Accounting
  import opened LinkResets

  /** Event m logs some packet on link j. */
  predicate LogsAny(ls: seq<Link>, es: seq<Event>, m: nat, j: nat)
    requires AllValid(ls) && m < |es|
  {
    es[m].Data? && es[m].sent && es[m].sn >= 0 && Select(Run(ls, es[..m]), es[m].t) == j
  }

  /** Packets logged on link j after event k. */
  function LogsSince(ls: seq<Link>, es: seq<Event>, k: nat, j: nat): nat
    requires AllValid(ls)
  {
    if |es| <= k + 1 then 0
    else
      var m := |es| - 1;
      LogsSince(ls, es[..m], k, j) + if LogsAny(ls, es, m, j) then 1 else 0
  }

  /** The event neither reports p nor acknowledges it, nor resets link j. */
  predicate Spares(ls: seq<Link>, e: Event, j: nat, p: int)
    requires AllValid(ls) && j < |ls|
  {
    match e
    case Data(_, _, _) => true
    case House(t, usable) => j in usable ==> !TimedOut(ls[j], t)
    case Recv(_, _, m) =>
      match m
      case NakOf(lost) => p !in lost
      case SrtlaAckOf(acks) => p !in acks
      case SrtAckOf(ack) => ack <= p
      case Reg3 => true
      case Other => true
  }

  ghost predicate SparedSince(ls: seq<Link>, es: seq<Event>, k: nat, j: nat, p: int)
    requires AllValid(ls) && j < |ls|
  {
    forall m :: k < m < |es| ==> Spares(Run(ls, es[..m]), es[m], j, p)
  }

  /** Slot i holds p, and the scan comes to it at step d. */
  predicate At(l: Link, p: int, i: nat, d: nat) {
    Valid(l) && i < LOG_SIZE && l.log[i] == p && StepOf(l.idx, i) == d
  }

  lemma LoggedIsNext(l: Link, p: int)
    requires Valid(l)
    ensures At(Logged(l, p), p, l.idx, 1)
  {
  }

  lemma LogMovesOn(l: Link, p: int, i: nat, d: nat, q: int)
    requires At(l, p, i, d) && d < LOG_SIZE
    ensures At(Logged(l, q), p, i, d + 1)
  {
  }

  lemma NakSpares(ls: seq<Link>, q: int, j: nat, p: int, i: nat, d: nat)
    requires AllValid(ls) && j < |ls| && At(ls[j], p, i, d) && q != p
    ensures At(Nak(ls, q)[j], p, i, d)
  {
  }

  lemma AckSpares(ls: seq<Link>, q: int, j: nat, p: int, i: nat, d: nat)
    requires AllValid(ls) && j < |ls| && At(ls[j], p, i, d) && q != p
    ensures At(SrtlaAck(ls, q)[j], p, i, d)
  {
  }

  lemma {:induction false} NaksSpare(ls: seq<Link>, lost: seq<int>, j: nat, p: int, i: nat, d: nat)
    requires AllValid(ls) && j < |ls| && At(ls[j], p, i, d) && p !in lost
    ensures At(Naks(ls, lost)[j], p, i, d)
  {
    hide Nak, At;
    if lost != [] {
      NaksSpare(ls, lost[..|lost| - 1], j, p, i, d);
      NakSpares(Naks(ls, lost[..|lost| - 1]), lost[|lost| - 1], j, p, i, d);
    }
  }

  lemma {:induction false} AcksSpare(ls: seq<Link>, acks: seq<int>, j: nat, p: int, i: nat, d: nat)
    requires AllValid(ls) && j < |ls| && At(ls[j], p, i, d) && p !in acks
    ensures At(SrtlaAcks(ls, acks)[j], p, i, d)
  {
    hide SrtlaAck, At;
    if acks != [] {
      AcksSpare(ls, acks[..|acks| - 1], j, p, i, d);
      AckSpares(SrtlaAcks(ls, acks[..|acks| - 1]), acks[|acks| - 1], j, p, i, d);
    }
  }

  lemma RecvSpares(ls: seq<Link>, e: Event, j: nat, p: int, i: nat, d: nat)
    requires AllValid(ls) && j < |ls| && At(ls[j], p, i, d) && e.Recv? && Spares(ls, e, j, p)
    ensures At(Step(ls, e)[j], p, i, d)
  {
    if e.i < |ls| {
      var heard := ls[e.i := ls[e.i].(lastRcvd := e.ts)];
      assert At(heard[j], p, i, d);
      match e.m
      case NakOf(lost) => NaksSpare(heard, lost, j, p, i, d);
      case SrtlaAckOf(acks) => AcksSpare(heard, acks, j, p, i, d);
      case SrtAckOf(_) =>
      case Reg3 =>
      case Other =>
    }
  }

  /** One event moves the packet one step back in the scan, if it logs another on
      the link, and else leaves it where it is. */
  lemma StepSpares(ls: seq<Link>, e: Event, j: nat, p: int, i: nat, d: nat)
    requires AllValid(ls) && j < |ls| && At(ls[j], p, i, d) && d < LOG_SIZE && Spares(ls, e, j, p)
    ensures var logs := e.Data? && e.sent && e.sn >= 0 && Select(ls, e.t) == j;
            At(Step(ls, e)[j], p, i, if logs then d + 1 else d)
  {
    match e
    case Data(t, sn, sent) =>
      hide At;
      if sent && sn >= 0 && Select(ls, t) == j {
        LogMovesOn(ls[j], p, i, d, sn);
      } else {
        SendSpares(ls, e, j, p, i, d);
      }
    case Recv(_, _, _) => RecvSpares(ls, e, j, p, i, d);
    case House(_, _) =>
  }

  lemma SendSpares(ls: seq<Link>, e: Event, j: nat, p: int, i: nat, d: nat)
    requires AllValid(ls) && j < |ls| && At(ls[j], p, i, d) && e.Data?
    requires !(e.sent && e.sn >= 0 && Select(ls, e.t) == j)
    ensures At(Step(ls, e)[j], p, i, d)
  {
    hide Select;
  }

  lemma SparedPrefix(ls: seq<Link>, es: seq<Event>, k: nat, j: nat, p: int)
    requires AllValid(ls) && j < |ls| && es != [] && SparedSince(ls, es, k, j, p)
    ensures SparedSince(ls, es[..|es| - 1], k, j, p)
  {
    hide Run, Spares;
    var q := es[..|es| - 1];
    forall m | k < m < |q| ensures Spares(Run(ls, q[..m]), q[m], j, p) {
      assert q[..m] == es[..m];
    }
  }

  lemma {:induction false} StaysInLog(ls: seq<Link>, es: seq<Event>, k: nat, j: nat, p: int)
    returns (i: nat)
    requires AllValid(ls) && j < |ls| && k < |es| && LogsOn(ls, es, k, j, p)
    requires SparedSince(ls, es, k, j, p) && LogsSince(ls, es, k, j) < LOG_SIZE - 1
    ensures At(Run(ls, es)[j], p, i, 1 + LogsSince(ls, es, k, j))
  {
    hide At, Spares, Step, Select;
    var m := |es| - 1;
    var q := es[..m];
    var before := Run(ls, q);
    if k == m {
      i := before[j].idx;
      LogsIt(before, es[m], j);
    } else {
      SparedPrefix(ls, es, k, j, p);
      assert q[..k] == es[..k];
      i := StaysInLog(ls, q, k, j, p);
      assert Spares(before, es[m], j, p);
      StepSpares(before, es[m], j, p, i, 1 + LogsSince(ls, q, k, j));
    }
  }

  lemma LogsIt(ls: seq<Link>, e: Event, j: nat)
    requires AllValid(ls) && j < |ls| && e.Data? && e.sent && e.sn >= 0 && Select(ls, e.t) == j
    ensures At(Step(ls, e)[j], e.sn, ls[j].idx, 1)
  {
    LoggedIsNext(ls[j], e.sn);
  }

  /** A packet logged on a link is found there as long as it was not reported or
      acknowledged, the link was not reset, and fewer than 255 packets were logged
      on it since. */
  lemma LoggedPacketIsFound(ls: seq<Link>, es: seq<Event>, k: nat, j: nat, p: int)
    requires AllValid(ls) && j < |ls| && k < |es| && LogsOn(ls, es, k, j, p)
    requires SparedSince(ls, es, k, j, p) && LogsSince(ls, es, k, j) < LOG_SIZE - 1
    ensures Find(Run(ls, es)[j], p) >= 0
  {
    hide LogsOn, Run, SparedSince, LogsSince;
    var i := StaysInLog(ls, es, k, j, p);
    FindComplete(Run(ls, es)[j], p);
  }

  /** If such a packet went over that link only, an SRTLA ACK credits the link and
      a NAK charges it. */
  lemma ReportReachesTheCarrier(ls: seq<Link>, es: seq<Event>, floor: int, k: nat, j: nat, p: int)
    requires Blank(ls, floor) && floor >= CLEARED && p > floor && j < |ls|
    requires k < |es| && LogsOn(ls, es, k, j, p)
    requires SparedSince(ls, es, k, j, p) && LogsSince(ls, es, k, j) < LOG_SIZE - 1
    requires forall i, m :: 0 <= m < |es| && 0 <= i < |ls| && LogsOn(ls, es, m, i, p) ==> i == j
    ensures var end, ts := Run(ls, es), RunTally(ls, es);
            && AckTally(end, ts, p) == ts[j := ts[j].(credited := ts[j].credited + 1)]
            && NakTally(end, ts, p) == ts[j := ts[j].(charged := ts[j].charged + 1)]
  {
    hide LogsOn, Run, RunTally, SparedSince, LogsSince, Grown, SrtlaAck;
    LoggedPacketIsFound(ls, es, k, j, p);
    CreditGoesToTheCarrier(ls, es, floor, p, j);
    HeldSomewhere(Run(ls, es), p, j);
  }

  lemma HeldSomewhere(ls: seq<Link>, p: int, j: nat)
    requires AllValid(ls) && j < |ls| && Find(ls[j], p) >= 0
    ensures Holder(ls, p) >= 0
  {
  }

  /** A cumulative ACK makes a link forget exactly the packets below its number. */
  lemma SrtAckForgetsExactly(l: Link, ack: int, p: int)
    requires Valid(l) && p >= 0
    ensures Find(SrtAcked(l, ack), p) >= 0 <==> Find(l, p) >= 0 && p >= ack
  {
    FindComplete(l, p);
    FindComplete(SrtAcked(l, ack), p);
    var r := SrtAcked(l, ack);
    assert forall i :: 0 <= i < LOG_SIZE && i != l.idx ==> (r.log[i] == p <==> l.log[i] == p && p >= ack);
  }

  // ---- failed sends ----

  lemma {:induction false} DisabledTime(ls: seq<Link>, es: seq<Event>, k: nat, i: nat)
    requires AllValid(ls) && i < |ls| && k < |es|
    requires es[k].Data? && !es[k].sent && Select(Run(ls, es[..k]), es[k].t) == i
    requires forall m :: k < m < |es| ==> !(es[m].Recv? && es[m].i == i)
    ensures 0 <= Run(ls, es)[i].lastRcvd <= 1
  {
    hide Step, Select;
    var q := es[..|es| - 1];
    TimeAfter(Run(ls, q), es[|es| - 1], i);
    if k < |q| {
      assert q[..k] == es[..k];
      DisabledTime(ls, q, k, i);
    } else {
      FailedSendMarks(Run(ls, q), es[k], i);
    }
  }

  lemma FailedSendMarks(ls: seq<Link>, e: Event, i: nat)
    requires AllValid(ls) && i < |ls| && e.Data? && !e.sent && Select(ls, e.t) == i
    ensures Step(ls, e)[i].lastRcvd == 1
  {
  }

  /** After a failed send a link is not chosen again before a packet was heard on
      it, once the clock has passed five seconds. */
  lemma FailedLinkIsAvoided(ls: seq<Link>, es: seq<Event>, k: nat, i: nat, t: int)
    requires AllValid(ls) && i < |ls| && k < |es|
    requires es[k].Data? && !es[k].sent && Select(Run(ls, es[..k]), es[k].t) == i
    requires forall m :: k < m < |es| ==> !(es[m].Recv? && es[m].i == i)
    requires t > 5
    ensures Select(Run(ls, es), t) != i
  {
    DisabledTime(ls, es, k, i);
  }
}
