/** Conservation of packets: what a link is charged for losses and credited for
    deliveries never exceeds what was logged on it. */
module Accounting {
  import opened Links
  import opened LinkRuns

  /** Packets logged on a link, losses charged to it, deliveries credited to it. */
  datatype Tally = Tally(logged: nat, charged: nat, credited: nat)

  function NakTally(ls: seq<Link>, ts: seq<Tally>, p: int): (r: seq<Tally>)
    requires AllValid(ls) && |ts| == |ls|
    ensures |r| == |ts|
  {
    var j := Holder(ls, p);
    if j == -1 then ts else ts[j := ts[j].(charged := ts[j].charged + 1)]
  }

  function AckTally(ls: seq<Link>, ts: seq<Tally>, p: int): (r: seq<Tally>)
    requires AllValid(ls) && |ts| == |ls|
    ensures |r| == |ts|
  {
    var j := Holder(ls, p);
    if j == -1 then ts else ts[j := ts[j].(credited := ts[j].credited + 1)]
  }

  function NaksTally(ls: seq<Link>, ts: seq<Tally>, lost: seq<int>): (r: seq<Tally>)
    requires AllValid(ls) && |ts| == |ls|
    ensures |r| == |ts|
  {
    if lost == [] then ts
    else
      var k := |lost| - 1;
      NakTally(Naks(ls, lost[..k]), NaksTally(ls, ts, lost[..k]), lost[k])
  }

  function AcksTally(ls: seq<Link>, ts: seq<Tally>, acks: seq<int>): (r: seq<Tally>)
    requires AllValid(ls) && |ts| == |ls|
    ensures |r| == |ts|
  {
    if acks == [] then ts
    else
      var k := |acks| - 1;
      AckTally(SrtlaAcks(ls, acks[..k]), AcksTally(ls, ts, acks[..k]), acks[k])
  }

  function StepTally(ls: seq<Link>, ts: seq<Tally>, e: Event): (r: seq<Tally>)
    requires AllValid(ls) && |ts| == |ls|
    ensures |r| == |ts|
  {
    match e
    case Data(t, sn, sent) =>
      var i := Select(ls, t);
      if i >= 0 && sent && sn >= 0 then ts[i := ts[i].(logged := ts[i].logged + 1)] else ts
    case House(_, _) => ts
    case Recv(i, now, m) =>
      if i >= |ls| then ts
      else
        var heard := ls[i := ls[i].(lastRcvd := now)];
        match m
        case NakOf(lost) => NaksTally(heard, ts, lost)
        case SrtlaAckOf(acks) => AcksTally(heard, ts, acks)
        case SrtAckOf(_) => ts
        case Reg3 => ts
        case Other => ts
  }

  function RunTally(ls: seq<Link>, es: seq<Event>): (r: seq<Tally>)
    requires AllValid(ls)
    ensures |r| == |ls|
  {
    if es == [] then seq(|ls|, _ => Tally(0, 0, 0))
    else StepTally(Run(ls, es[..|es| - 1]), RunTally(ls, es[..|es| - 1]), es[|es| - 1])
  }

  // ---- the invariant ----

  /** Entries of the searched slots above `floor`: packets still outstanding.
      The floor is 0 for a zero-filled log and -1 for a cleared one. */
  function Outstanding(l: Link, floor: int): nat
    requires Valid(l)
  {
    Searched(l.log, l.idx, floor + 1)
  }

  predicate Balanced(l: Link, t: Tally, floor: int) {
    && Valid(l)
    && (forall k :: 0 <= k < LOG_SIZE ==> l.log[k] >= CLEARED)
    && t.charged + t.credited + Outstanding(l, floor) <= t.logged
    && Outstanding(l, floor) <= l.inFlight
  }

  predicate AllBalanced(ls: seq<Link>, ts: seq<Tally>, floor: int) {
    |ls| == |ts| && AllValid(ls) && forall i :: 0 <= i < |ls| ==> Balanced(ls[i], ts[i], floor)
  }

  /** The numbers of NAKs come from `naks` and those of SRTLA ACKs from `acks`;
      data packets and SRT ACKs may carry any. */
  ghost predicate Admits(e: Event, naks: iset<int>, acks: iset<int>) {
    e.Recv? ==>
      && (e.m.NakOf? ==> forall k :: 0 <= k < |e.m.lost| ==> e.m.lost[k] in naks)
      && (e.m.SrtlaAckOf? ==> forall k :: 0 <= k < |e.m.acks| ==> e.m.acks[k] in acks)
  }

  ghost predicate AdmitsAll(es: seq<Event>, naks: iset<int>, acks: iset<int>) {
    forall k :: 0 <= k < |es| ==> Admits(es[k], naks, acks)
  }

  /** No number of the set equals an entry that stands for no packet. */
  ghost predicate Harmless(numbers: iset<int>, floor: int) {
    forall p :: CLEARED <= p <= floor ==> p !in numbers
  }

  lemma {:induction false} LoggedBalances(l: Link, t: Tally, sn: int, floor: int)
    requires Balanced(l, t, floor) && sn >= 0
    ensures Balanced(Logged(l, sn), t.(logged := t.logged + 1), floor)
  {
    hide CountGe;
    var blank := l.log[l.idx := floor];
    var next := (l.idx + 1) % LOG_SIZE;
    CountUpdate(blank, l.idx, sn, floor + 1);
    CountUpdate(blank[l.idx := sn], next, floor, floor + 1);
    assert blank[l.idx := sn][next := floor] == Logged(l, sn).log[next := floor];
  }

  /** Clearing the entry a scan found takes exactly one packet off the books. */
  lemma {:induction false} ClearedEntry(l: Link, p: int, floor: int)
    requires Valid(l) && floor >= CLEARED && p > floor && Find(l, p) >= 0
    ensures Searched(l.log[Find(l, p) := CLEARED], l.idx, floor + 1) == Outstanding(l, floor) - 1
  {
    var i := Find(l, p);
    CountUpdate(l.log[l.idx := floor], i, CLEARED, floor + 1);
    assert l.log[i := CLEARED][l.idx := floor] == l.log[l.idx := floor][i := CLEARED];
  }

  /** After a cumulative ACK the in-flight count is exactly what is outstanding. */
  lemma {:induction false} SrtAckSettles(l: Link, ack: int, floor: int)
    requires Valid(l) && floor >= CLEARED && ack > floor
    ensures SrtAcked(l, ack).inFlight == Outstanding(SrtAcked(l, ack), floor) <= Outstanding(l, floor)
  {
    var cleared := ClearedBelow(l.log, l.idx, ack);
    CountSame(l.log[l.idx := ack - 1], ack, cleared[l.idx := floor], floor + 1);
    MonotoneCount(l.log[l.idx := ack - 1], ack, l.log[l.idx := floor], floor + 1);
  }

  /** Any cumulative ACK keeps the balance, even one at or below the floor. */
  lemma {:induction false} SrtAckBalances(l: Link, t: Tally, ack: int, floor: int)
    requires Balanced(l, t, floor) && floor >= CLEARED
    ensures Balanced(SrtAcked(l, ack), t, floor)
  {
    var cleared := ClearedBelow(l.log, l.idx, ack);
    if ack > floor {
      SrtAckSettles(l, ack, floor);
    } else {
      MonotoneCount(cleared[l.idx := floor], floor + 1, l.log[l.idx := floor], floor + 1);
      MonotoneCount(l.log[l.idx := floor], floor + 1, l.log[l.idx := ack - 1], ack);
    }
  }

  lemma {:induction false} MonotoneCount(a: seq<int>, lo: int, b: seq<int>, lo': int)
    requires |a| == |b| && forall i :: 0 <= i < |a| && a[i] >= lo ==> b[i] >= lo'
    ensures CountGe(a, lo) <= CountGe(b, lo')
  {
    if a != [] {
      MonotoneCount(a[..|a| - 1], lo, b[..|b| - 1], lo');
    }
  }

  lemma {:induction false} HousekeptBalances(l: Link, t: Tally, now: int, floor: int)
    requires Balanced(l, t, floor) && floor >= CLEARED
    ensures Balanced(Housekept(l, now), t, floor)
  {
    var r := Housekept(l, now);
    if r != l {
      CountNone(r.log[r.idx := floor], floor + 1);
    }
  }

  /** A number found in the searched log of some link is above the floor. */
  lemma HeldIsAbove(ls: seq<Link>, ts: seq<Tally>, p: int, floor: int)
    requires AllBalanced(ls, ts, floor)
    requires !(CLEARED <= p <= floor) && Holder(ls, p) >= 0
    ensures p > floor
  {
    var l := ls[Holder(ls, p)];
    assert l.log[Find(l, p)] == p;
  }

  lemma NakBalances(ls: seq<Link>, ts: seq<Tally>, p: int, floor: int)
    requires AllBalanced(ls, ts, floor) && floor >= CLEARED && !(CLEARED <= p <= floor)
    ensures AllBalanced(Nak(ls, p), NakTally(ls, ts, p), floor)
  {
    var j := Holder(ls, p);
    if j >= 0 {
      HeldIsAbove(ls, ts, p, floor);
      ClearedEntry(ls[j], p, floor);
    }
  }

  lemma AckedBalances(l: Link, t: Tally, p: int, holds: bool, floor: int)
    requires Balanced(l, t, floor) && floor >= CLEARED && (holds ==> p > floor && Find(l, p) >= 0)
    ensures Balanced(AckedAt(l, p, holds), if holds then t.(credited := t.credited + 1) else t, floor)
  {
    hide CountGe, Find;
    if holds {
      ClearedEntry(l, p, floor);
    }
  }

  lemma AckBalances(ls: seq<Link>, ts: seq<Tally>, p: int, floor: int)
    requires AllBalanced(ls, ts, floor) && floor >= CLEARED && !(CLEARED <= p <= floor)
    ensures AllBalanced(SrtlaAck(ls, p), AckTally(ls, ts, p), floor)
  {
    hide Balanced, AckedAt, Holder;
    var j := Holder(ls, p);
    if j >= 0 {
      HeldIsAbove(ls, ts, p, floor);
    }
    forall i | 0 <= i < |ls| ensures Balanced(SrtlaAck(ls, p)[i], AckTally(ls, ts, p)[i], floor) {
      AckedBalances(ls[i], ts[i], p, i == j, floor);
    }
  }

  lemma {:induction false} NaksBalance(ls: seq<Link>, ts: seq<Tally>, lost: seq<int>, floor: int)
    requires AllBalanced(ls, ts, floor) && floor >= CLEARED
    requires forall k :: 0 <= k < |lost| ==> !(CLEARED <= lost[k] <= floor)
    ensures AllBalanced(Naks(ls, lost), NaksTally(ls, ts, lost), floor)
  {
    hide Balanced, Nak, NakTally;
    if lost != [] {
      var k := |lost| - 1;
      NaksBalance(ls, ts, lost[..k], floor);
      NakBalances(Naks(ls, lost[..k]), NaksTally(ls, ts, lost[..k]), lost[k], floor);
    }
  }

  lemma {:induction false} AcksBalance(ls: seq<Link>, ts: seq<Tally>, acks: seq<int>, floor: int)
    requires AllBalanced(ls, ts, floor) && floor >= CLEARED
    requires forall k :: 0 <= k < |acks| ==> !(CLEARED <= acks[k] <= floor)
    ensures AllBalanced(SrtlaAcks(ls, acks), AcksTally(ls, ts, acks), floor)
  {
    hide Balanced, SrtlaAck, AckTally;
    if acks != [] {
      var k := |acks| - 1;
      AcksBalance(ls, ts, acks[..k], floor);
      AckBalances(SrtlaAcks(ls, acks[..k]), AcksTally(ls, ts, acks[..k]), acks[k], floor);
    }
  }

  lemma {:induction false} StepBalances(ls: seq<Link>, ts: seq<Tally>, e: Event, floor: int,
                                        naks: iset<int>, acks: iset<int>)
    requires AllBalanced(ls, ts, floor) && floor >= CLEARED
    requires Admits(e, naks, acks) && Harmless(naks, floor) && Harmless(acks, floor)
    ensures AllBalanced(Step(ls, e), StepTally(ls, ts, e), floor)
  {
    hide Balanced;
    match e
    case Data(t, sn, sent) =>
      var i := Select(ls, t);
      if i >= 0 && !sent {
        HeardBalances(ls, ts, i, 1, floor);
      } else if i >= 0 && sn >= 0 {
        LoggedBalances(ls[i], ts[i], sn, floor);
      }
    case House(t, usable) =>
      forall i | 0 <= i < |ls| ensures Balanced(Step(ls, e)[i], ts[i], floor) {
        HousekeptBalances(ls[i], ts[i], t, floor);
      }
    case Recv(i, now, m) =>
      if i < |ls| {
        RecvBalances(ls, ts, e, floor, naks, acks);
      }
  }

  lemma HeardBalances(ls: seq<Link>, ts: seq<Tally>, i: nat, now: int, floor: int)
    requires AllBalanced(ls, ts, floor) && i < |ls|
    ensures AllBalanced(ls[i := ls[i].(lastRcvd := now)], ts, floor)
  {
  }

  lemma RecvBalances(ls: seq<Link>, ts: seq<Tally>, e: Event, floor: int, naks: iset<int>, acks: iset<int>)
    requires AllBalanced(ls, ts, floor) && floor >= CLEARED
    requires Admits(e, naks, acks) && Harmless(naks, floor) && Harmless(acks, floor)
    requires e.Recv? && e.i < |ls|
    ensures AllBalanced(Step(ls, e), StepTally(ls, ts, e), floor)
  {
    hide Balanced;
    var heard := ls[e.i := ls[e.i].(lastRcvd := e.ts)];
    HeardBalances(ls, ts, e.i, e.ts, floor);
    match e.m
    case NakOf(lost) => NaksBalance(heard, ts, lost, floor);
    case SrtlaAckOf(acks) => AcksBalance(heard, ts, acks, floor);
    case SrtAckOf(ack) =>
      forall k | 0 <= k < |ls| ensures Balanced(Step(ls, e)[k], ts[k], floor) {
        SrtAckBalances(heard[k], ts[k], ack, floor);
      }
    case Reg3 =>
    case Other =>
  }

  /** A starting state: nothing outstanding. */
  predicate Blank(ls: seq<Link>, floor: int) {
    && AllValid(ls)
    && forall i, k :: 0 <= i < |ls| && 0 <= k < LOG_SIZE ==> CLEARED <= ls[i].log[k] <= floor
  }

  /** Over any run whose loss and delivery reports avoid the numbers that stand
      for no packet, on every link: losses charged + deliveries credited +
      packets still outstanding never exceed packets logged, and the in-flight
      count covers what is outstanding. */
  lemma {:induction false} PacketsConserved(ls: seq<Link>, es: seq<Event>, floor: int,
                                            naks: iset<int>, acks: iset<int>)
    requires Blank(ls, floor) && floor >= CLEARED
    requires AdmitsAll(es, naks, acks) && Harmless(naks, floor) && Harmless(acks, floor)
    ensures AllBalanced(Run(ls, es), RunTally(ls, es), floor)
  {
    if es == [] {
      forall i | 0 <= i < |ls| ensures Balanced(ls[i], RunTally(ls, es)[i], floor) {
        CountNone(ls[i].log[ls[i].idx := floor], floor + 1);
      }
    } else {
      var p := es[..|es| - 1];
      PacketsConserved(ls, p, floor, naks, acks);
      StepBalances(Run(ls, p), RunTally(ls, p), es[|es| - 1], floor, naks, acks);
    }
  }

  /** ... and right after a cumulative ACK the in-flight count of every link is
      exact. */
  lemma {:induction false} InFlightExactAfterSrtAck(ls: seq<Link>, es: seq<Event>, floor: int)
    requires AllValid(ls) && floor >= CLEARED
    requires es != [] && es[|es| - 1].Recv? && es[|es| - 1].i < |ls|
    requires es[|es| - 1].m.SrtAckOf? && es[|es| - 1].m.ack > floor
    ensures forall i :: 0 <= i < |ls| ==>
      Run(ls, es)[i].inFlight == Outstanding(Run(ls, es)[i], floor)
  {
    var prev := Run(ls, es[..|es| - 1]);
    var e := es[|es| - 1];
    var heard := prev[e.i := prev[e.i].(lastRcvd := e.ts)];
    forall i | 0 <= i < |ls|
      ensures Run(ls, es)[i].inFlight == Outstanding(Run(ls, es)[i], floor)
    {
      SrtAckSettles(heard[i], e.m.ack, floor);
    }
  }

  // ---- exactly when ----

  /** Charged + credited + outstanding <= logged on every link. */
  predicate Conserved(ls: seq<Link>, es: seq<Event>, floor: int)
    requires AllValid(ls)
  {
    var end, ts := Run(ls, es), RunTally(ls, es);
    forall i :: 0 <= i < |ls| ==> ts[i].charged + ts[i].credited + Outstanding(end[i], floor) <= ts[i].logged
  }

  /** Links whose log housekeeping has cleared. */
  function Reset(n: nat): (ls: seq<Link>)
    ensures AllValid(ls) && |ls| == n
  {
    seq(n, _ => Link(seq(LOG_SIZE, _ => CLEARED), 0, 0, WINDOW_FLOOR, 0))
  }

  /** A loss or a delivery of p reported to a single link that holds p. */
  lemma ReportCounts(ls: seq<Link>, t: Tally, p: int, slot: nat)
    requires |ls| == 1 && AllValid(ls)
    requires slot < LOG_SIZE && slot != ls[0].idx && ls[0].log[slot] == p
    ensures StepTally(ls, [t], Recv(0, 5, NakOf([p]))) == [t.(charged := t.charged + 1)]
    ensures StepTally(ls, [t], Recv(0, 5, SrtlaAckOf([p]))) == [t.(credited := t.credited + 1)]
  {
    var heard := ls[0 := ls[0].(lastRcvd := 5)];
    FindComplete(heard[0], p);
    assert heard[0].log[slot] == p;
    assert Holder(heard, p) == 0;
    assert [p][..0] == [];
    assert NaksTally(heard, [t], [p]) == NakTally(Naks(heard, []), NaksTally(heard, [t], []), p);
    assert AcksTally(heard, [t], [p]) == AckTally(SrtlaAcks(heard, []), AcksTally(heard, [t], []), p);
  }

  lemma RunOne(ls: seq<Link>, es: seq<Event>, e: Event)
    requires AllValid(ls)
    ensures Run(ls, es + [e]) == Step(Run(ls, es), e)
    ensures RunTally(ls, es + [e]) == StepTally(Run(ls, es), RunTally(ls, es), e)
  {
    assert (es + [e])[..|es|] == es;
  }

  /** On a link that logged nothing, a report of an entry it holds all the same
      breaks conservation. */
  lemma ReportBreaks(ls: seq<Link>, es: seq<Event>, p: int, slot: nat)
    requires |ls| == 1 && AllValid(ls) && RunTally(ls, es) == [Tally(0, 0, 0)]
    requires var l := Run(ls, es)[0]; slot < LOG_SIZE && slot != l.idx && l.log[slot] == p
    ensures RunTally(ls, es + [Recv(0, 5, NakOf([p]))]) == [Tally(0, 1, 0)]
    ensures RunTally(ls, es + [Recv(0, 5, SrtlaAckOf([p]))]) == [Tally(0, 0, 1)]
  {
    hide Run, RunTally, StepTally;
    ReportCounts(Run(ls, es), Tally(0, 0, 0), p, slot);
    RunOne(ls, es, Recv(0, 5, NakOf([p])));
    RunOne(ls, es, Recv(0, 5, SrtlaAckOf([p])));
  }

  lemma Unbalanced(ls: seq<Link>, es: seq<Event>, floor: int)
    requires |ls| == 1 && AllValid(ls)
    requires var t := RunTally(ls, es)[0]; t.charged + t.credited > t.logged
    ensures !Conserved(ls, es, floor)
  {
    assert RunTally(ls, es)[0].charged + Outstanding(Run(ls, es)[0], floor) >= RunTally(ls, es)[0].charged;
  }

  /** A new link holds 0 in every slot, and -1 after any cumulative ACK above 0. */
  lemma NewLinkHolds()
    ensures RunTally(Fresh(1), []) == [Tally(0, 0, 0)]
    ensures Run(Fresh(1), [])[0].idx == 0 && Run(Fresh(1), [])[0].log[1] == 0
    ensures var es := [Recv(0, 5, SrtAckOf(1))];
            && RunTally(Fresh(1), es) == [Tally(0, 0, 0)]
            && Run(Fresh(1), es)[0].idx == 0 && Run(Fresh(1), es)[0].log[1] == CLEARED
  {
    var e := Recv(0, 5, SrtAckOf(1));
    assert [e][..0] == [];
    assert Run(Fresh(1), [e]) == Step(Fresh(1), e);
    assert Step(Fresh(1), e)[0] == SrtAcked(Fresh(1)[0].(lastRcvd := 5), 1);
  }

  /** A NAK of 0 charges, and an SRTLA ACK of 0xFFFFFFFF credits, a link that
      logged nothing. */
  lemma NewLinkMischarged()
    ensures RunTally(Fresh(1), [Recv(0, 5, NakOf([0]))])[0] == Tally(0, 1, 0)
    ensures RunTally(Fresh(1), [Recv(0, 5, SrtAckOf(1)), Recv(0, 5, SrtlaAckOf([CLEARED]))])[0] == Tally(0, 0, 1)
  {
    NewLinkHolds();
    ReportBreaks(Fresh(1), [], 0, 1);
    ReportBreaks(Fresh(1), [Recv(0, 5, SrtAckOf(1))], CLEARED, 1);
    assert [] + [Recv(0, 5, NakOf([0]))] == [Recv(0, 5, NakOf([0]))];
    assert [Recv(0, 5, SrtAckOf(1))] + [Recv(0, 5, SrtlaAckOf([CLEARED]))]
        == [Recv(0, 5, SrtAckOf(1)), Recv(0, 5, SrtlaAckOf([CLEARED]))];
  }

  /** Conservation in all runs from new links, whose logs are full of zeros, for
      all data and SRT ACK numbers: exactly when neither NAKs nor SRTLA ACKs may
      carry 0 or 0xFFFFFFFF. */
  lemma NewLinksConserve(naks: iset<int>, acks: iset<int>)
    ensures (forall n: nat, es: seq<Event> :: AdmitsAll(es, naks, acks) ==> Conserved(Fresh(n), es, 0))
      <==> 0 !in naks && 0 !in acks && CLEARED !in naks && CLEARED !in acks
  {
    hide Run, RunTally, Fresh;
    if 0 !in naks && 0 !in acks && CLEARED !in naks && CLEARED !in acks {
      forall n: nat, es: seq<Event> | AdmitsAll(es, naks, acks) ensures Conserved(Fresh(n), es, 0) {
        FreshBlank(n);
        PacketsConserved(Fresh(n), es, 0, naks, acks);
      }
    } else {
      NewLinkHolds();
      var p := if 0 in naks || 0 in acks then 0 else CLEARED;
      var before := if p == 0 then [] else [Recv(0, 5, SrtAckOf(1))];
      ReportBreaks(Fresh(1), before, p, 1);
      var es := before + [Report(p, naks)];
      Unbalanced(Fresh(1), es, 0);
      assert AdmitsAll(es, naks, acks);
    }
  }

  lemma FreshBlank(n: nat)
    ensures Blank(Fresh(n), 0) && |Fresh(n)| == n
  {
  }

  /** A report of p, as a loss if NAKs may carry it, else as a delivery. */
  ghost function Report(p: int, naks: iset<int>): Event {
    if p in naks then Recv(0, 5, NakOf([p])) else Recv(0, 5, SrtlaAckOf([p]))
  }

  /** From links whose logs housekeeping has cleared, only 0xFFFFFFFF does harm. */
  lemma ResetLinksConserve(naks: iset<int>, acks: iset<int>)
    ensures (forall n: nat, es: seq<Event> :: AdmitsAll(es, naks, acks) ==> Conserved(Reset(n), es, CLEARED))
      <==> CLEARED !in naks && CLEARED !in acks
  {
    hide Run, RunTally, Reset;
    if CLEARED !in naks && CLEARED !in acks {
      forall n: nat, es: seq<Event> | AdmitsAll(es, naks, acks) ensures Conserved(Reset(n), es, CLEARED) {
        ResetBlank(n);
        PacketsConserved(Reset(n), es, CLEARED, naks, acks);
      }
    } else {
      ResetBlank(1);
      ReportBreaks(Reset(1), [], CLEARED, 1);
      var es := [] + [Report(CLEARED, naks)];
      Unbalanced(Reset(1), es, CLEARED);
      assert AdmitsAll(es, naks, acks);
    }
  }

  lemma ResetBlank(n: nat)
    ensures Blank(Reset(n), CLEARED)
    ensures n == 1 ==> RunTally(Reset(n), []) == [Tally(0, 0, 0)] && Run(Reset(n), [])[0].idx == 0
                       && Run(Reset(n), [])[0].log[1] == CLEARED
  {
  }

  /** One NAK charges at most one link and clears at most one entry, one that
      held the lost number; if it charges none, no searched slot holds it. */
  lemma {:induction false} NakTouchesOneEntry(ls: seq<Link>, p: int)
    requires AllValid(ls)
    ensures Nak(ls, p) == ls ==>
      forall i, k :: 0 <= i < |ls| && 0 <= k < LOG_SIZE && k != ls[i].idx ==>
        ls[i].log[k] != p || p == CLEARED
    ensures Nak(ls, p) != ls ==>
      exists j, slot :: 0 <= j < |ls| && 0 <= slot < LOG_SIZE && slot != ls[j].idx
        && ls[j].log[slot] == p && Nak(ls, p) == ls[j := Charged(ls[j], slot)]
  {
    var j := Holder(ls, p);
    if j == -1 {
      forall i, k | 0 <= i < |ls| && 0 <= k < LOG_SIZE && k != ls[i].idx
        ensures ls[i].log[k] != p
      {
        assert Find(ls[i], p) == -1;
        FindComplete(ls[i], p);
      }
    } else {
      var slot := Find(ls[j], p);
      assert Nak(ls, p) == ls[j := Charged(ls[j], slot)];
      assert Nak(ls, p)[j].log[slot] == CLEARED;
      assert ls[j].log[slot] == p;
    }
  }

  // ---- credit goes to the carrier ----

  /** Event k of the run logs p on link j. */
  predicate LogsOn(ls: seq<Link>, es: seq<Event>, k: nat, j: nat, p: int)
    requires AllValid(ls) && k < |es|
  {
    es[k].Data? && es[k].sent && es[k].sn == p >= 0 && Select(Run(ls, es[..k]), es[k].t) == j
  }

  lemma {:induction false} NaksAddNone(ls: seq<Link>, lost: seq<int>, j: nat, p: int)
    requires AllValid(ls) && j < |ls| && p >= 0
    ensures p in Naks(ls, lost)[j].log ==> p in ls[j].log
  {
    if lost != [] {
      NaksAddNone(ls, lost[..|lost| - 1], j, p);
    }
  }

  lemma AckAddsNone(ls: seq<Link>, ack: int, j: nat, p: int)
    requires AllValid(ls) && j < |ls| && p >= 0
    ensures p in SrtlaAck(ls, ack)[j].log ==> p in ls[j].log
  {
    hide Find;
  }

  lemma {:induction false} AcksAddNone(ls: seq<Link>, acks: seq<int>, j: nat, p: int)
    requires AllValid(ls) && j < |ls| && p >= 0
    ensures p in SrtlaAcks(ls, acks)[j].log ==> p in ls[j].log
  {
    hide SrtlaAck;
    if acks != [] {
      AcksAddNone(ls, acks[..|acks| - 1], j, p);
      AckAddsNone(SrtlaAcks(ls, acks[..|acks| - 1]), acks[|acks| - 1], j, p);
    }
  }

  /** A number gets into a link's log only by being logged on it. */
  lemma StepAddsOnlyLogged(ls: seq<Link>, e: Event, j: nat, p: int)
    requires AllValid(ls) && j < |ls| && p >= 0
    requires p in Step(ls, e)[j].log && p !in ls[j].log
    ensures e.Data? && e.sent && e.sn == p && Select(ls, e.t) == j
  {
    if e.Recv? && e.i < |ls| {
      var heard := ls[e.i := ls[e.i].(lastRcvd := e.ts)];
      match e.m
      case NakOf(lost) => NaksAddNone(heard, lost, j, p);
      case SrtlaAckOf(acks) => AcksAddNone(heard, acks, j, p);
      case SrtAckOf(ack) =>
      case Reg3 =>
      case Other =>
    }
  }

  lemma BlankHoldsNone(ls: seq<Link>, floor: int, j: nat, p: int)
    requires Blank(ls, floor) && p > floor && j < |ls|
    ensures p !in ls[j].log
  {
    assert |ls[j].log| == LOG_SIZE;
  }

  lemma {:induction false} HeldWasLogged(ls: seq<Link>, es: seq<Event>, floor: int, j: nat, p: int)
    requires Blank(ls, floor) && floor >= CLEARED && p > floor && j < |ls|
    requires p in Run(ls, es)[j].log
    ensures exists k :: 0 <= k < |es| && LogsOn(ls, es, k, j, p)
  {
    hide Step, Select;
    if es == [] {
      BlankHoldsNone(ls, floor, j, p);
    } else {
      var q, e := es[..|es| - 1], es[|es| - 1];
      if p in Run(ls, q)[j].log {
        HeldWasLogged(ls, q, floor, j, p);
        var k :| 0 <= k < |q| && LogsOn(ls, q, k, j, p);
        assert q[..k] == es[..k];
        assert LogsOn(ls, es, k, j, p);
      } else {
        StepAddsOnlyLogged(Run(ls, q), e, j, p);
        assert LogsOn(ls, es, |es| - 1, j, p);
      }
    }
  }

  /** At any point of any run, an SRTLA ACK of p credits at most one link, one
      that had logged p; so where p was sent over one link only, that link or
      none. */
  lemma CreditGoesToTheCarrier(ls: seq<Link>, es: seq<Event>, floor: int, p: int, carrier: nat)
    requires Blank(ls, floor) && floor >= CLEARED && p > floor
    requires forall j, k :: 0 <= k < |es| && 0 <= j < |ls| && LogsOn(ls, es, k, j, p) ==> j == carrier
    ensures var end, ts := Run(ls, es), RunTally(ls, es);
            && (Holder(end, p) == carrier || Holder(end, p) == -1)
            && (forall j :: 0 <= j < |ls| && j != carrier ==>
                  && AckTally(end, ts, p)[j] == ts[j]
                  && SrtlaAck(end, p)[j] == Grown(end[j]))
  {
    var end := Run(ls, es);
    var j := Holder(end, p);
    if j >= 0 {
      assert end[j].log[Find(end[j], p)] == p;
      HeldWasLogged(ls, es, floor, j, p);
    }
  }
}
