/** When the sender asks for a group: only without live links, one request at a
    time, and never within four seconds of another request or of a grant. */
module Requests {
  import opened Options
  import opened Receiver
  import opened Registration

  type Event = Registration.Event

  /** The event is an NGP that makes the sender ask for a group on that link. */
  predicate Requests(y: System, links: seq<Addr>, e: Event) {
    && e.DeliverDown? && e.reply.RegNgp? && Possible(y, links, e)
    && y.snd.pending != Some(e.to) && Next(y, links, e).snd.pending == Some(e.to)
  }

  /** The event is a REG2 by which the sender adopts an id. */
  predicate Grants(y: System, links: seq<Addr>, e: Event) {
    && e.DeliverDown? && e.reply.Reg2? && Possible(y, links, e)
    && y.snd.pending == Some(e.to) && Next(y, links, e).snd.pending == None
  }

  /** Packets from the receiver are handled in the order of the clock. */
  predicate Clocked(es: seq<Event>) {
    forall j, k :: 0 <= j <= k < |es| && es[j].DeliverDown? && es[k].DeliverDown? ==> es[j].ts <= es[k].ts
  }

  /** A request needs that no link is live and nothing is pending, and asks with
      the sender's id. */
  lemma RequestsOnlyWhenDown(y: System, links: seq<Addr>, e: Event)
    requires Requests(y, links, e)
    ensures y.snd.active == 0 && y.snd.pending == None
    ensures Outgoing(e.to, Register(y.snd.id)) in Next(y, links, e).up
  {
  }

  /** While a request is pending, no event moves it to another link; only the grant
      on that link ends it, or a housekeeping pass after its timeout. */
  lemma PendingStays(y: System, links: seq<Addr>, e: Event, c: Addr)
    requires y.snd.pending == Some(c)
    ensures var p := Next(y, links, e).snd.pending;
            p == Some(c) || (p == None && (Grants(y, links, e) || (e.Housekeep? && e.time > y.snd.timeout)))
  {
  }

  lemma TimeoutMoves(y: System, links: seq<Addr>, e: Event)
    ensures var t, t' := y.snd.timeout, Next(y, links, e).snd.timeout;
            && (t' == t || (e.DeliverDown? && t' == e.ts + 4))
            && (Requests(y, links, e) ==> e.ts > t && t' == e.ts + 4)
            && (Grants(y, links, e) ==> t' == e.ts + 4)
  {
  }

  lemma {:induction false} TimeoutHolds(links: seq<Addr>, first: Id, es: seq<Event>, j: nat)
    requires Clocked(es) && j < |es|
    requires var y := History(links, first, es[..j]); Requests(y, links, es[j]) || Grants(y, links, es[j])
    ensures History(links, first, es).snd.timeout >= es[j].ts + 4
  {
    hide Next, Requests, Grants;
    var p := es[..|es| - 1];
    TimeoutMoves(History(links, first, p), links, es[|es| - 1]);
    if j < |p| {
      assert p[..j] == es[..j];
      IsDelivery(History(links, first, es[..j]), links, es[j]);
      TimeoutHolds(links, first, p, j);
    } else {
      IsDelivery(History(links, first, p), links, es[j]);
    }
  }

  lemma IsDelivery(y: System, links: seq<Addr>, e: Event)
    requires Requests(y, links, e) || Grants(y, links, e)
    ensures e.DeliverDown?
  {
  }

  /** In every history with an ordered clock, a request comes more than four
      seconds after any earlier request, and after any earlier grant. */
  lemma RequestsFarApart(links: seq<Addr>, first: Id, es: seq<Event>, j: nat, k: nat)
    requires Clocked(es) && j < k < |es|
    requires var y := History(links, first, es[..j]); Requests(y, links, es[j]) || Grants(y, links, es[j])
    requires Requests(History(links, first, es[..k]), links, es[k])
    ensures es[k].ts > es[j].ts + 4
  {
    hide Next, Requests, Grants, History;
    var p := es[..k];
    assert p[..j] == es[..j] && p[j] == es[j];
    forall a, b | 0 <= a <= b < |p| && p[a].DeliverDown? && p[b].DeliverDown? ensures p[a].ts <= p[b].ts {
      assert p[a] == es[a] && p[b] == es[b];
    }
    IsDelivery(History(links, first, es[..j]), links, es[j]);
    IsDelivery(History(links, first, p), links, es[k]);
    TimeoutHolds(links, first, p, j);
    TimeoutMoves(History(links, first, p), links, es[k]);
  }

  // ---- housekeeping ----

  /** What housekeeping sends on a link it finds in this state: where the link may
      have been forgotten it asks to join again, or repeats the pending request; a
      link that is due asks for whatever is missing. */
  predicate Sends(status: Status, pending: Option<Addr>, id: Id, o: Outgoing) {
    o.packet.id == id &&
    match status
    case NoSocket => false
    case TimedOut => if pending == None then o.packet.Join? else pending == Some(o.from) && o.packet.Register?
    case Due => o.packet.Register? <==> pending == None
    case Settled => false
  }

  ghost predicate SomeSends(links: seq<Addr>, statuses: seq<Status>, pending: Option<Addr>, id: Id, o: Outgoing)
    requires |statuses| == |links|
  {
    exists i :: 0 <= i < |links| && links[i] == o.from && Sends(statuses[i], pending, id, o)
  }

  lemma {:induction false} RetriesSend(id: Id, pending: Option<Addr>, links: seq<Addr>, statuses: seq<Status>,
                                       o: Outgoing)
    requires |statuses| == |links|
    ensures o in Retries(id, pending, links, statuses) <==> SomeSends(links, statuses, pending, id, o)
  {
    if links != [] {
      var k := |links| - 1;
      RetriesSend(id, pending, links[..k], statuses[..k], o);
      var before := Retries(id, pending, links[..k], statuses[..k]);
      var last := Retry(id, pending, links[k], statuses[k]);
      assert o in before + last <==> o in before || o in last;
      RetrySends(id, pending, links[k], statuses[k], o);
      if i :| 0 <= i < k && links[..k][i] == o.from && Sends(statuses[..k][i], pending, id, o) {
        assert links[i] == o.from && Sends(statuses[i], pending, id, o);
      }
      forall i | 0 <= i < k ensures links[i] == links[..k][i] && statuses[i] == statuses[..k][i] {
      }
    }
  }

  lemma RetrySends(id: Id, pending: Option<Addr>, c: Addr, status: Status, o: Outgoing)
    ensures o in Retry(id, pending, c, status) <==> c == o.from && Sends(status, pending, id, o)
  {
  }

  function Awake(statuses: seq<Status>): set<nat> {
    set i: nat | i < |statuses| && (statuses[i].Due? || statuses[i].Settled?)
  }

  lemma {:induction false} AliveCounts(statuses: seq<Status>)
    ensures Alive(statuses) == |Awake(statuses)|
  {
    if statuses != [] {
      var k := |statuses| - 1;
      AliveCounts(statuses[..k]);
      if statuses[k].Due? || statuses[k].Settled? {
        assert Awake(statuses) == Awake(statuses[..k]) + {k};
      } else {
        assert Awake(statuses) == Awake(statuses[..k]);
      }
    }
  }

  /** A housekeeping pass gives up a request that timed out, sends exactly what the
      state of each link calls for, and counts the links that are neither without a
      socket nor timed out. */
  lemma HousekeepingSends(y: System, links: seq<Addr>, e: Event)
    requires e.Housekeep? && Possible(y, links, e)
    ensures var y' := Next(y, links, e);
            && y'.snd.pending == (if e.time > y.snd.timeout then None else y.snd.pending)
            && y'.snd.active == |Awake(e.statuses)|
            && forall o :: o in y'.up <==> o in y.up || SomeSends(links, e.statuses, y'.snd.pending, y.snd.id, o)
  {
    var y' := Next(y, links, e);
    AliveCounts(e.statuses);
    forall o ensures o in y'.up <==> o in y.up || SomeSends(links, e.statuses, y'.snd.pending, y.snd.id, o) {
      RetriesSend(y.snd.id, y'.snd.pending, links, e.statuses, o);
    }
  }
}
