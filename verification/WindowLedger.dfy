/** What losses and deliveries do to a link, as a ledger beside the tally: packets
    in flight are those logged and not credited, and the window moves by fixed
    amounts. */
module WindowLedger {
  import opened Links
  import opened LinkRuns
  import opened Accounting

  /** SRTLA ACKs handled while the link was heard, deliveries credited while more
      was in flight than the window allows, and what the two bounds took off. */
  datatype Ledger = Ledger(acks: nat, boosts: nat, floored: nat, capped: nat)

  /** The window of a link that started with window w. */
  function Expected(w: int, t: Tally, g: Ledger): int {
    w - 100 * t.charged + g.acks + 29 * g.boosts + g.floored - g.capped
  }

  function LossNoted(w: int, t: Tally, g: Ledger): Ledger {
    var left := Expected(w, t, g) - 100;
    if left < 1000 then g.(floored := g.floored + (1000 - left)) else g
  }

  /** An SRTLA ACK, on a link that was heard or not, that holds the packet or not. */
  function AckNoted(w: int, t: Tally, g: Ledger, heard: bool, holds: bool): Ledger {
    var boost := holds && (t.logged - (t.credited + 1)) * 1000 > Expected(w, t, g);
    var g1 := if boost then g.(boosts := g.boosts + 1) else g;
    var grown := Expected(w, t, g1) + 1;
    if !heard then g1
    else if grown > 60000 then g1.(acks := g1.acks + 1, capped := g1.capped + (grown - 60000))
    else g1.(acks := g1.acks + 1)
  }

  function NakLedger(ws: seq<int>, ls: seq<Link>, ts: seq<Tally>, gs: seq<Ledger>, p: int): (r: seq<Ledger>)
    requires AllValid(ls) && |ws| == |ts| == |gs| == |ls|
    ensures |r| == |gs|
  {
    var j := Holder(ls, p);
    if j == -1 then gs else gs[j := LossNoted(ws[j], ts[j], gs[j])]
  }

  function AckLedger(ws: seq<int>, ls: seq<Link>, ts: seq<Tally>, gs: seq<Ledger>, p: int): (r: seq<Ledger>)
    requires AllValid(ls) && |ws| == |ts| == |gs| == |ls|
    ensures |r| == |gs|
  {
    var j := Holder(ls, p);
    seq(|gs|, i requires 0 <= i < |gs| => AckNoted(ws[i], ts[i], gs[i], ls[i].lastRcvd != 0, i == j))
  }

  function NaksLedger(ws: seq<int>, ls: seq<Link>, ts: seq<Tally>, gs: seq<Ledger>, lost: seq<int>)
    : (r: seq<Ledger>)
    requires AllValid(ls) && |ws| == |ts| == |gs| == |ls|
    ensures |r| == |gs|
  {
    if lost == [] then gs
    else
      var k := |lost| - 1;
      NakLedger(ws, Naks(ls, lost[..k]), NaksTally(ls, ts, lost[..k]),
                NaksLedger(ws, ls, ts, gs, lost[..k]), lost[k])
  }

  function AcksLedger(ws: seq<int>, ls: seq<Link>, ts: seq<Tally>, gs: seq<Ledger>, acks: seq<int>)
    : (r: seq<Ledger>)
    requires AllValid(ls) && |ws| == |ts| == |gs| == |ls|
    ensures |r| == |gs|
  {
    if acks == [] then gs
    else
      var k := |acks| - 1;
      AckLedger(ws, SrtlaAcks(ls, acks[..k]), AcksTally(ls, ts, acks[..k]),
                AcksLedger(ws, ls, ts, gs, acks[..k]), acks[k])
  }

  function StepLedger(ws: seq<int>, ls: seq<Link>, ts: seq<Tally>, gs: seq<Ledger>, e: Event): (r: seq<Ledger>)
    requires AllValid(ls) && |ws| == |ts| == |gs| == |ls|
    ensures |r| == |gs|
  {
    if !(e.Recv? && e.i < |ls|) then gs
    else
      var heard := ls[e.i := ls[e.i].(lastRcvd := e.ts)];
      match e.m
      case NakOf(lost) => NaksLedger(ws, heard, ts, gs, lost)
      case SrtlaAckOf(acks) => AcksLedger(ws, heard, ts, gs, acks)
      case SrtAckOf(_) => gs
      case Reg3 => gs
      case Other => gs
  }

  function Windows(ls: seq<Link>): (ws: seq<int>)
    ensures |ws| == |ls| && forall i :: 0 <= i < |ls| ==> ws[i] == ls[i].window
  {
    seq(|ls|, i requires 0 <= i < |ls| => ls[i].window)
  }

  function RunLedger(ls: seq<Link>, es: seq<Event>): (r: seq<Ledger>)
    requires AllValid(ls)
    ensures |r| == |ls|
  {
    if es == [] then seq(|ls|, _ => Ledger(0, 0, 0, 0))
    else
      var p := es[..|es| - 1];
      StepLedger(Windows(ls), Run(ls, p), RunTally(ls, p), RunLedger(ls, p), es[|es| - 1])
  }

  // ---- the law ----

  /** Sends, NAKs and SRTLA ACKs, and what does not touch the links. */
  predicate Plain(e: Event) {
    match e
    case Data(_, _, _) => true
    case Recv(_, _, m) => !m.SrtAckOf?
    case House(_, _) => false
  }

  predicate Booked(l: Link, t: Tally, w: int, g: Ledger) {
    && l.inFlight + t.credited == t.logged
    && l.window == Expected(w, t, g)
  }

  predicate AllBooked(ls: seq<Link>, ts: seq<Tally>, ws: seq<int>, gs: seq<Ledger>) {
    && |ls| == |ts| == |ws| == |gs|
    && forall i :: 0 <= i < |ls| ==> Booked(ls[i], ts[i], ws[i], gs[i])
  }

  lemma LossBooked(l: Link, t: Tally, w: int, g: Ledger, slot: nat)
    requires Valid(l) && slot < LOG_SIZE && Booked(l, t, w, g)
    ensures Booked(Charged(l, slot), t.(charged := t.charged + 1), w, LossNoted(w, t, g))
  {
  }

  lemma AckBooked(l: Link, t: Tally, w: int, g: Ledger, p: int, holds: bool)
    requires Valid(l) && Booked(l, t, w, g) && (holds ==> Find(l, p) >= 0 && l.inFlight > 0)
    ensures Booked(AckedAt(l, p, holds), if holds then t.(credited := t.credited + 1) else t,
                   w, AckNoted(w, t, g, l.lastRcvd != 0, holds))
  {
    hide Find;
  }

  /** A link that holds the packet has it in flight. */
  lemma HolderFlies(ls: seq<Link>, ts: seq<Tally>, p: int, floor: int)
    requires AllBalanced(ls, ts, floor) && floor >= CLEARED
    requires !(CLEARED <= p <= floor) && Holder(ls, p) >= 0
    ensures ls[Holder(ls, p)].inFlight > 0
  {
    HeldIsAbove(ls, ts, p, floor);
    ClearedEntry(ls[Holder(ls, p)], p, floor);
  }

  lemma {:induction false} NaksBooked(ls: seq<Link>, ts: seq<Tally>, ws: seq<int>, gs: seq<Ledger>, lost: seq<int>)
    requires AllValid(ls) && AllBooked(ls, ts, ws, gs)
    ensures AllBooked(Naks(ls, lost), NaksTally(ls, ts, lost), ws, NaksLedger(ws, ls, ts, gs, lost))
  {
    hide Booked, Holder, Find, Charged, LossNoted;
    if lost != [] {
      var k := |lost| - 1;
      NaksBooked(ls, ts, ws, gs, lost[..k]);
      var l, t, g := Naks(ls, lost[..k]), NaksTally(ls, ts, lost[..k]), NaksLedger(ws, ls, ts, gs, lost[..k]);
      var j := Holder(l, lost[k]);
      if j >= 0 {
        LossBooked(l[j], t[j], ws[j], g[j], Find(l[j], lost[k]));
      }
    }
  }

  lemma OneAckBooked(ls: seq<Link>, ts: seq<Tally>, ws: seq<int>, gs: seq<Ledger>, p: int, floor: int)
    requires AllBalanced(ls, ts, floor) && floor >= CLEARED && !(CLEARED <= p <= floor)
    requires AllBooked(ls, ts, ws, gs)
    ensures AllBooked(SrtlaAck(ls, p), AckTally(ls, ts, p), ws, AckLedger(ws, ls, ts, gs, p))
  {
    hide Booked, Balanced, Find, AckedAt, AckNoted, Holder;
    var j := Holder(ls, p);
    if j >= 0 {
      HolderFlies(ls, ts, p, floor);
    }
    forall i | 0 <= i < |ls|
      ensures Booked(SrtlaAck(ls, p)[i], AckTally(ls, ts, p)[i], ws[i], AckLedger(ws, ls, ts, gs, p)[i])
    {
      AckBooked(ls[i], ts[i], ws[i], gs[i], p, i == j);
    }
  }

  lemma {:induction false} AcksBooked(ls: seq<Link>, ts: seq<Tally>, ws: seq<int>, gs: seq<Ledger>, acks: seq<int>,
                                      floor: int)
    requires AllBalanced(ls, ts, floor) && floor >= CLEARED
    requires forall k :: 0 <= k < |acks| ==> !(CLEARED <= acks[k] <= floor)
    requires AllBooked(ls, ts, ws, gs)
    ensures AllBooked(SrtlaAcks(ls, acks), AcksTally(ls, ts, acks), ws, AcksLedger(ws, ls, ts, gs, acks))
  {
    hide Booked, Balanced, SrtlaAck, AckTally, AckLedger;
    if acks != [] {
      var k := |acks| - 1;
      AcksBooked(ls, ts, ws, gs, acks[..k], floor);
      AcksBalance(ls, ts, acks[..k], floor);
      OneAckBooked(SrtlaAcks(ls, acks[..k]), AcksTally(ls, ts, acks[..k]), ws,
                   AcksLedger(ws, ls, ts, gs, acks[..k]), acks[k], floor);
    }
  }

  lemma HeardBooked(ls: seq<Link>, ts: seq<Tally>, ws: seq<int>, gs: seq<Ledger>, i: nat, now: int)
    requires AllBooked(ls, ts, ws, gs) && i < |ls|
    ensures AllBooked(ls[i := ls[i].(lastRcvd := now)], ts, ws, gs)
  {
  }

  lemma StepBooked(ls: seq<Link>, ts: seq<Tally>, ws: seq<int>, gs: seq<Ledger>, e: Event, floor: int,
                   naks: iset<int>, acks: iset<int>)
    requires AllBalanced(ls, ts, floor) && floor >= CLEARED && Plain(e)
    requires Admits(e, naks, acks) && Harmless(naks, floor) && Harmless(acks, floor)
    requires AllBooked(ls, ts, ws, gs)
    ensures AllBooked(Step(ls, e), StepTally(ls, ts, e), ws, StepLedger(ws, ls, ts, gs, e))
  {
    hide Balanced, Naks, SrtlaAcks, Select;
    match e
    case Data(_, _, _) =>
    case Recv(i, ts', m) =>
      if i < |ls| {
        var heard := ls[i := ls[i].(lastRcvd := ts')];
        HeardBalances(ls, ts, i, ts', floor);
        HeardBooked(ls, ts, ws, gs, i, ts');
        match m
        case NakOf(lost) => NaksBooked(heard, ts, ws, gs, lost);
        case SrtlaAckOf(numbers) => AcksBooked(heard, ts, ws, gs, numbers, floor);
        case Reg3 =>
        case Other =>
      }
  }

  /** In every run of sends, NAKs and SRTLA ACKs from links with nothing logged and
      nothing in flight, on every link: packets in flight are those logged and not
      credited; and the window is the starting one, less 100 for every loss
      charged, plus 1 for every SRTLA ACK while the link is heard, plus 29 for
      every delivery credited over a full window, but for what the bounds of 1000
      and 60000 took off. */
  lemma {:induction false} LedgerBalances(ls: seq<Link>, es: seq<Event>, floor: int, naks: iset<int>, acks: iset<int>)
    requires Blank(ls, floor) && floor >= CLEARED && forall i :: 0 <= i < |ls| ==> ls[i].inFlight == 0
    requires forall k :: 0 <= k < |es| ==> Plain(es[k])
    requires AdmitsAll(es, naks, acks) && Harmless(naks, floor) && Harmless(acks, floor)
    ensures var end, ts, gs := Run(ls, es), RunTally(ls, es), RunLedger(ls, es);
            forall i :: 0 <= i < |ls| ==>
              && end[i].inFlight + ts[i].credited == ts[i].logged
              && end[i].window == ls[i].window - 100 * ts[i].charged + gs[i].acks + 29 * gs[i].boosts
                                  + gs[i].floored - gs[i].capped
  {
    LedgerKeeps(ls, es, floor, naks, acks);
  }

  lemma {:induction false} LedgerKeeps(ls: seq<Link>, es: seq<Event>, floor: int, naks: iset<int>, acks: iset<int>)
    requires Blank(ls, floor) && floor >= CLEARED && forall i :: 0 <= i < |ls| ==> ls[i].inFlight == 0
    requires forall k :: 0 <= k < |es| ==> Plain(es[k])
    requires AdmitsAll(es, naks, acks) && Harmless(naks, floor) && Harmless(acks, floor)
    ensures AllBooked(Run(ls, es), RunTally(ls, es), Windows(ls), RunLedger(ls, es))
  {
    hide Step, StepTally, StepLedger, Balanced;
    if es != [] {
      var p := es[..|es| - 1];
      LedgerKeeps(ls, p, floor, naks, acks);
      PacketsConserved(ls, p, floor, naks, acks);
      StepBooked(Run(ls, p), RunTally(ls, p), Windows(ls), RunLedger(ls, p), es[|es| - 1], floor, naks, acks);
    }
  }
}
