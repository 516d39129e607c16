/** Housekeeping and links: one that fell silent is emptied, one that was heard
    keeps all it had. */
module LinkResets {
  import opened Links
  import opened LinkRuns

  /** Event k is a packet heard on link i at time ts. */
  predicate HeardAt(es: seq<Event>, k: nat, i: nat, ts: int)
    requires k < |es|
  {
    es[k].Recv? && es[k].i == i && es[k].ts == ts
  }

  /** Nothing after event k is heard on link i, and housekeeping has not run. */
  predicate SilentSince(es: seq<Event>, k: nat, i: nat) {
    forall m :: k < m < |es| ==> !es[m].House? && !(es[m].Recv? && es[m].i == i)
  }

  /** After event k nothing is heard on link i at an earlier time than ts, no
      packet fails to be sent, and housekeeping runs no later than 4 s after ts. */
  predicate AliveSince(es: seq<Event>, k: nat, i: nat, ts: int) {
    forall m :: k < m < |es| ==>
      match es[m]
      case Data(_, _, sent) => sent
      case Recv(j, t, _) => j == i ==> t >= ts
      case House(t, _) => t <= ts + CONN_TIMEOUT
  }

  lemma {:induction false} NaksKeepTime(ls: seq<Link>, lost: seq<int>, i: nat)
    requires AllValid(ls) && i < |ls|
    ensures Naks(ls, lost)[i].lastRcvd == ls[i].lastRcvd
  {
    if lost != [] {
      NaksKeepTime(ls, lost[..|lost| - 1], i);
    }
  }

  lemma {:induction false} AcksKeepTime(ls: seq<Link>, acks: seq<int>, i: nat)
    requires AllValid(ls) && i < |ls|
    ensures SrtlaAcks(ls, acks)[i].lastRcvd == ls[i].lastRcvd
  {
    if acks != [] {
      AcksKeepTime(ls, acks[..|acks| - 1], i);
    }
  }

  /** What one event does to the time link i was last heard. */
  lemma TimeAfter(ls: seq<Link>, e: Event, i: nat)
    requires AllValid(ls) && i < |ls|
    ensures var was, t := ls[i].lastRcvd, Step(ls, e)[i].lastRcvd;
            match e
            case Data(_, _, sent) => t == was || (!sent && t == 1)
            case Recv(j, ts, _) => t == if j == i then ts else was
            case House(now, _) => t == was || (t == 0 && was + CONN_TIMEOUT < now)
  {
    match e
    case Recv(j, ts, m) =>
      if j < |ls| {
        var heard := ls[j := ls[j].(lastRcvd := ts)];
        match m
        case NakOf(lost) => NaksKeepTime(heard, lost, i);
        case SrtlaAckOf(acks) => AcksKeepTime(heard, acks, i);
        case SrtAckOf(_) =>
        case Reg3 =>
        case Other =>
      }
    case Data(_, _, _) =>
    case House(_, _) =>
  }

  lemma {:induction false} SilentTime(ls: seq<Link>, es: seq<Event>, k: nat, i: nat, ts: int)
    requires AllValid(ls) && i < |ls| && k < |es| && HeardAt(es, k, i, ts) && SilentSince(es, k, i)
    ensures Run(ls, es)[i].lastRcvd == ts || Run(ls, es)[i].lastRcvd == 1
  {
    hide Step;
    var p := es[..|es| - 1];
    TimeAfter(Run(ls, p), es[|es| - 1], i);
    if k < |p| {
      SilentTime(ls, p, k, i, ts);
    }
  }

  lemma {:induction false} AliveTime(ls: seq<Link>, es: seq<Event>, k: nat, i: nat, ts: int)
    requires AllValid(ls) && i < |ls| && k < |es| && HeardAt(es, k, i, ts) && AliveSince(es, k, i, ts)
    ensures Run(ls, es)[i].lastRcvd >= ts
  {
    hide Step;
    var p := es[..|es| - 1];
    TimeAfter(Run(ls, p), es[|es| - 1], i);
    if k < |p| {
      AliveTime(ls, p, k, i, ts);
    }
  }

  /** In any run, the first pass more than 4 s after a link was last heard leaves
      its log without entries, nothing in flight, the smallest window, and the
      link marked as never heard. */
  lemma SilentLinkIsEmptied(ls: seq<Link>, es: seq<Event>, k: nat, i: nat, ts: int, t: int, usable: set<nat>)
    requires AllValid(ls) && i < |ls| && k < |es| && HeardAt(es, k, i, ts) && SilentSince(es, k, i)
    requires 0 < ts && ts + CONN_TIMEOUT < t && i in usable
    ensures var l := Step(Run(ls, es), House(t, usable))[i];
            && (forall slot :: 0 <= slot < LOG_SIZE ==> l.log[slot] == CLEARED)
            && l.inFlight == 0 && l.window == WINDOW_FLOOR && l.lastRcvd == 0
  {
    SilentTime(ls, es, k, i, ts);
  }

  /** In any run, a pass no more than 4 s after a link was heard leaves it alone. */
  lemma HeardLinkIsKept(ls: seq<Link>, es: seq<Event>, k: nat, i: nat, ts: int, t: int, usable: set<nat>)
    requires AllValid(ls) && i < |ls| && k < |es| && HeardAt(es, k, i, ts) && AliveSince(es, k, i, ts)
    requires t <= ts + CONN_TIMEOUT
    ensures Step(Run(ls, es), House(t, usable))[i] == Run(ls, es)[i]
  {
    AliveTime(ls, es, k, i, ts);
  }
}
