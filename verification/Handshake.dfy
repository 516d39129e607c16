/** The handshake gets through: an adopted id is announced on every link, and a
    run in which every packet arrives ends with one group of all the links. */
module Handshake {
  import opened Options
  import opened Receiver
  import opened Membership
  import opened Members
  import opened Registration

  type Event = Registration.Event

  /** Once a REG2 for the sender's own request arrives, every link has sent a REG2
      with the new id. */
  lemma AdoptionIsAnnounced(y: System, links: seq<Addr>, to: Addr, id: Id, ts: int, sent: bool)
    requires var e := DeliverDown(to, Reg2(id), ts, sent); Possible(y, links, e)
    requires y.snd.pending == Some(to) && id[..HALF] == y.snd.id[..HALF]
    ensures var y' := Next(y, links, DeliverDown(to, Reg2(id), ts, sent));
            && y'.snd.id == id && y'.snd.pending == None
            && forall c :: c in links ==> Outgoing(c, Join(id)) in y'.up
  {
    var all := JoinOnAll(links, id);
    forall c | c in links ensures Outgoing(c, Join(id)) in all {
      var i :| 0 <= i < |links| && links[i] == c;
      assert all[i] == Outgoing(c, Join(id));
    }
  }

  // ---- a run in which everything arrives ----

  predicate DistinctLinks(links: seq<Addr>) {
    forall i, j :: 0 <= i < j < |links| ==> links[i] != links[j]
  }

  /** Every event was possible when it happened. */
  ghost predicate AllPossible(links: seq<Addr>, first: Id, es: seq<Event>) {
    forall k :: 0 <= k < |es| ==> Possible(History(links, first, es[..k]), links, es[k])
  }

  /** One housekeeping pass, at the very start. */
  predicate OnePass(es: seq<Event>) {
    es != [] && es[0].Housekeep? && forall k :: 1 <= k < |es| ==> !es[k].Housekeep?
  }

  function AllTimedOut(n: nat): seq<Status> {
    seq(n, _ => TimedOut)
  }

  /** The opening: all links are tried, the receiver knows no such group, the
      sender asks for one on its first link, and gets it. */
  function Opening(links: seq<Addr>, first: Id, half: Half): seq<Event>
    requires links != []
  {
    var a := links[0];
    [Housekeep(5, AllTimedOut(|links|)),
     DeliverUp(a, Join(first), 5, [], true, true),
     DeliverDown(a, RegNgp, 5, true),
     DeliverUp(a, Register(first), 5, [half], true, true),
     DeliverDown(a, Reg2(first[..HALF] + half), 5, true)]
  }

  /** The REG2 of link i arrives, and so does the answer to it. */
  function Joining(c: Addr, id: Id): seq<Event> {
    [DeliverUp(c, Join(id), 5, [], true, true), DeliverDown(c, Reg3, 5, true)]
  }

  function Joinings(links: seq<Addr>, id: Id, n: nat): seq<Event>
    requires n <= |links|
  {
    if n == 0 then [] else Joinings(links, id, n - 1) + Joining(links[n - 1], id)
  }

  function Whole(links: seq<Addr>, first: Id, half: Half, n: nat): seq<Event>
    requires links != [] && n <= |links|
  {
    Opening(links, first, half) + Joinings(links, first[..HALF] + half, n)
  }

  lemma OneEvent(links: seq<Addr>, first: Id, es: seq<Event>, e: Event)
    ensures History(links, first, es + [e]) == Next(History(links, first, es), links, e)
    ensures AllPossible(links, first, es + [e]) <==>
              AllPossible(links, first, es) && Possible(History(links, first, es), links, e)
    ensures es != [] ==> (OnePass(es + [e]) <==> OnePass(es) && !e.Housekeep?)
  {
    hide Next, History, Possible;
    var all := es + [e];
    HistoryStep(links, first, es, e);
    forall k | 0 <= k < |es| ensures all[..k] == es[..k] && all[k] == es[k] {
    }
    assert all[..|es|] == es && all[|es|] == e;
    if AllPossible(links, first, all) {
      forall k | 0 <= k < |es| ensures Possible(History(links, first, es[..k]), links, es[k]) {
        assert Possible(History(links, first, all[..k]), links, all[k]);
      }
      assert Possible(History(links, first, all[..|es|]), links, all[|es|]);
    }
  }

  lemma HistoryStep(links: seq<Addr>, first: Id, es: seq<Event>, e: Event)
    ensures History(links, first, es + [e]) == Next(History(links, first, es), links, e)
  {
    assert (es + [e])[..|es|] == es;
  }

  /** After the pass every link has sent a REG2 with the first id. */
  lemma {:induction false} AllTried(id: Id, links: seq<Addr>, n: nat)
    requires n == |links|
    ensures forall c :: c in links ==> Outgoing(c, Join(id)) in Retries(id, None, links, AllTimedOut(n))
    ensures Alive(AllTimedOut(n)) == 0
  {
    if n > 0 {
      AllTried(id, links[..n - 1], n - 1);
      assert AllTimedOut(n)[..n - 1] == AllTimedOut(n - 1);
      assert links == links[..n - 1] + [links[n - 1]];
    }
  }

  /** The sender has its group and has told it on all links; n of them are in. */
  ghost predicate Progress(y: System, links: seq<Addr>, id: Id, n: nat)
    requires n <= |links|
  {
    && y.snd.id == id && y.snd.active == n
    && |y.rcv.groups| == 1 && y.rcv.groups[0].id == id && Inv(y.rcv)
    && Addrs(y.rcv.groups[0].conns) == AsSet(links[..n])
    && (forall c :: c in links ==> Outgoing(c, Join(id)) in y.up)
  }

  lemma OneJoins(y: System, links: seq<Addr>, id: Id, n: nat)
    requires n < |links| && Progress(y, links, id, n)
    ensures var up := DeliverUp(links[n], Join(id), 5, [], true, true);
            var down := DeliverDown(links[n], Reg3, 5, true);
            && Possible(y, links, up) && Possible(Next(y, links, up), links, down)
            && Progress(Next(Next(y, links, up), links, down), links, id, n + 1)
  {
    var c := links[n];
    var e := Reg2From(c, id, true, true);
    JoinMembers(y.rcv, e, 5);
    StepKeepsInv(y.rcv, e, 5);
    JoinAnswered(y.rcv, c, id, 5);
    var y1 := Next(y, links, DeliverUp(c, Join(id), 5, [], true, true));
    assert y1.rcv == Step(y.rcv, e, 5).0;
    assert Incoming(c, Reg3) in Addressed(c, [Reg3]) by {
      assert Reg3 in [Reg3];
    }
    assert links[..n + 1] == links[..n] + [c];
    assert AsSet(links[..n + 1]) == AsSet(links[..n]) + {c};
  }

  lemma JoinAnswered(s: State, c: Addr, id: Id, ts: int)
    requires |s.groups| == 1 && s.groups[0].id == id
    ensures ConnReg(s, c, id, ts, true, true).1 == [Reg3]
  {
    hide Joined, FindByAddr;
    assert GroupWithId(s.groups, id) == 0;
  }

  /** The opening leads to a group nobody is in yet, announced on all links. */
  lemma OpeningProgresses(links: seq<Addr>, first: Id, half: Half)
    requires links != []
    ensures var es, id := Opening(links, first, half), first[..HALF] + half;
            && AllPossible(links, first, es) && OnePass(es)
            && Progress(History(links, first, es), links, id, 0)
  {
    hide History, AllPossible, Next, Possible, OnePass, Progress;
    var es, a, id := Opening(links, first, half), links[0], first[..HALF] + half;
    var y0 := History(links, first, []);
    OneEvent(links, first, [], es[0]);
    Start(links, first);
    assert [] + [es[0]] == [es[0]];
    var y1 := Next(y0, links, es[0]);
    Tried(links, first);
    OneEvent(links, first, [es[0]], es[1]);
    assert [es[0]] + [es[1]] == [es[0], es[1]];
    var y2 := Next(y1, links, es[1]);
    Unknown(y1, links, a, first);
    OneEvent(links, first, [es[0], es[1]], es[2]);
    assert [es[0], es[1]] + [es[2]] == [es[0], es[1], es[2]];
    var y3 := Next(y2, links, es[2]);
    Asked(y2, links, a, first);
    OneEvent(links, first, [es[0], es[1], es[2]], es[3]);
    assert [es[0], es[1], es[2]] + [es[3]] == [es[0], es[1], es[2], es[3]];
    var y4 := Next(y3, links, es[3]);
    Granted(y3, links, a, first, half);
    OneEvent(links, first, [es[0], es[1], es[2], es[3]], es[4]);
    assert [es[0], es[1], es[2], es[3]] + [es[4]] == es;
    AdoptionIsAnnounced(y4, links, a, id, 5, true);
    Announced(y4, links, a, id);
  }

  lemma Start(links: seq<Addr>, first: Id)
    ensures History(links, first, []) == System(Sender(first, None, 0, 0), INITIAL, {}, {}, {}, [])
    ensures AllPossible(links, first, [])
    ensures forall e: Event :: OnePass([e]) <==> e.Housekeep?
  {
  }

  ghost predicate Waiting(y: System, first: Id, pending: Option<Addr>) {
    y.rcv == INITIAL && y.snd.id == first && y.snd.active == 0 && y.snd.pending == pending
    && (pending == None ==> y.snd.timeout == 0)
  }

  lemma Tried(links: seq<Addr>, first: Id)
    requires links != []
    ensures var y0 := System(Sender(first, None, 0, 0), INITIAL, {}, {}, {}, []);
            var e := Housekeep(5, AllTimedOut(|links|));
            && Possible(y0, links, e)
            && Waiting(Next(y0, links, e), first, None)
            && Outgoing(links[0], Join(first)) in Next(y0, links, e).up
  {
    AllTried(first, links, |links|);
  }

  lemma Unknown(y: System, links: seq<Addr>, a: Addr, first: Id)
    requires Waiting(y, first, None) && Outgoing(a, Join(first)) in y.up
    ensures var e := DeliverUp(a, Join(first), 5, [], true, true);
            && Possible(y, links, e)
            && Waiting(Next(y, links, e), first, None)
            && Incoming(a, RegNgp) in Next(y, links, e).down
  {
    assert ConnReg(y.rcv, a, first, 5, true, true) == (INITIAL, [RegNgp]);
    assert RegNgp in [RegNgp];
  }

  lemma Asked(y: System, links: seq<Addr>, a: Addr, first: Id)
    requires Waiting(y, first, None) && Incoming(a, RegNgp) in y.down && a in links
    ensures var e := DeliverDown(a, RegNgp, 5, true);
            && Possible(y, links, e)
            && Waiting(Next(y, links, e), first, Some(a))
            && Outgoing(a, Register(first)) in Next(y, links, e).up
  {
  }

  lemma Granted(y: System, links: seq<Addr>, a: Addr, first: Id, half: Half)
    requires Waiting(y, first, Some(a)) && Outgoing(a, Register(first)) in y.up && a in links
    ensures var e, id := DeliverUp(a, Register(first), 5, [half], true, true), first[..HALF] + half;
            var y' := Next(y, links, e);
            && Possible(y, links, e)
            && y'.snd == y.snd
            && y'.rcv.groups == [Group(id, [], a, 5)]
            && Possible(y', links, DeliverDown(a, Reg2(id), 5, true))
  {
    var id: Id := first[..HALF] + half;
    GroupRegClosedForm(y.rcv, a, first, 5, [half], true);
    assert Reg2(id) in [Reg2(id)];
  }

  lemma Announced(y: System, links: seq<Addr>, a: Addr, id: Id)
    requires y.rcv.groups == [Group(id, [], a, 5)] && y.snd.active == 0 && y.snd.pending == Some(a)
    requires Possible(y, links, DeliverDown(a, Reg2(id), 5, true)) && id[..HALF] == y.snd.id[..HALF]
    ensures Progress(Next(y, links, DeliverDown(a, Reg2(id), 5, true)), links, id, 0)
  {
    AdoptionIsAnnounced(y, links, a, id, 5, true);
    var y' := Next(y, links, DeliverDown(a, Reg2(id), 5, true));
    assert y'.rcv == y.rcv;
    assert links[..0] == [];
  }

  lemma {:induction false} WholeProgresses(links: seq<Addr>, first: Id, half: Half, n: nat)
    requires links != [] && n <= |links|
    ensures var es, id := Whole(links, first, half, n), first[..HALF] + half;
            && AllPossible(links, first, es) && OnePass(es)
            && Progress(History(links, first, es), links, id, n)
  {
    hide History, AllPossible, Next, Possible, OnePass, Progress, Opening;
    OpeningProgresses(links, first, half);
    if n == 0 {
      assert Whole(links, first, half, 0) == Opening(links, first, half);
    } else {
      var p, id := Whole(links, first, half, n - 1), first[..HALF] + half;
      var js := Joining(links[n - 1], id);
      WholeProgresses(links, first, half, n - 1);
      OneJoins(History(links, first, p), links, id, n - 1);
      OneEvent(links, first, p, js[0]);
      OneEvent(links, first, p + [js[0]], js[1]);
      OpeningNotEmpty(links, first, half);
      assert Whole(links, first, half, n) == (p + [js[0]]) + [js[1]];
    }
  }

  lemma OpeningNotEmpty(links: seq<Addr>, first: Id, half: Half)
    requires links != []
    ensures Opening(links, first, half) != []
  {
  }

  /** For every list of distinct links there is a run with a single housekeeping
      pass, at its start, after which the receiver has one group, with the
      sender's id, whose members are exactly the links, and the sender counts all
      of them as active. */
  lemma HandshakeCompletes(links: seq<Addr>, first: Id)
    requires links != [] && DistinctLinks(links)
    ensures exists es :: AllPossible(links, first, es) && OnePass(es) &&
              var y := History(links, first, es);
              && |y.rcv.groups| == 1 && y.rcv.groups[0].id == y.snd.id
              && Addrs(y.rcv.groups[0].conns) == AsSet(links)
              && |y.rcv.groups[0].conns| == |links| == y.snd.active > 0
  {
    hide History, AllPossible, OnePass;
    var half: Half := seq(HALF, _ => 0);
    var n := |links|;
    WholeProgresses(links, first, half, n);
    var es := Whole(links, first, half, n);
    var y := History(links, first, es);
    var conns := y.rcv.groups[0].conns;
    assert links[..n] == links;
    AddrsCount(conns);
    LinksCount(links);
    assert AllPossible(links, first, es) && OnePass(es);
  }

  lemma {:induction false} LinksCount(links: seq<Addr>)
    requires DistinctLinks(links)
    ensures |AsSet(links)| == |links|
  {
    if links != [] {
      var k := |links| - 1;
      LinksCount(links[..k]);
      assert links == links[..k] + [links[k]];
      assert AsSet(links) == AsSet(links[..k]) + {links[k]};
    }
  }
}
