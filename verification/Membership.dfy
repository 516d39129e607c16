/** What every run of the receiver keeps: one group, no address twice, an exact
    group count, and members that presented the group's id. */
module Membership {
  import opened Wire
  import opened Receiver

  predicate DistinctAddrs(cs: seq<Conn>) {
    forall i, j :: 0 <= i < j < |cs| ==> cs[i].addr != cs[j].addr
  }

  predicate Inv(s: State) {
    && |s.groups| <= 1
    && forall g :: 0 <= g < |s.groups| ==>
         && DistinctAddrs(s.groups[g].conns)
         && forall c :: 0 <= c < |s.groups[g].conns| ==> |s.groups[g].conns[c].log| < ACK_INTERVAL
  }

  // ---- group registration in closed form ----

  lemma {:induction false} AllDestroyedIsEmpty(s: State)
    ensures AllDestroyed(s) == s.(groups := [], count := s.count - |s.groups|)
    decreases |s.groups|
  {
    if s.groups != [] {
      AllDestroyedIsEmpty(Destroyed(s, 0));
    }
  }

  /** A REG1 past the limit check leaves at most the new group, with an id made
      of the sender's half and the first random half drawn. */
  lemma {:induction false} GroupRegClosedForm(s: State, addr: Addr, id: Id, ts: int, draws: seq<Half>,
                                              sent: bool)
    requires s.count < MAX_GROUPS
    ensures var emptied := s.(groups := [], count := s.count - |s.groups|);
            GroupReg(s, addr, id, ts, draws, sent) ==
              if draws == [] then (emptied, [RegErr])
              else if !sent then (emptied.(count := emptied.count - 1), [RegErr])
              else (emptied.(groups := [Group(id[..HALF] + draws[0], [], addr, ts)],
                             count := emptied.count + 1),
                    [Reg2(id[..HALF] + draws[0])])
  {
    hide FindByAddr, AllDestroyed;
    AllDestroyedIsEmpty(WithoutId(WithoutAddr(s, addr), id));
    if draws != [] {
      assert FreshId([], id[..HALF], draws) == [id[..HALF] + draws[0]];
      var made := Group(id[..HALF] + draws[0], [], addr, ts);
      assert [made] + [] == [made];
      assert Without([made], 0) == [];
    }
  }

  // ---- the invariant ----

  lemma {:induction false} ConnRegKeepsInv(s: State, addr: Addr, id: Id, ts: int, memory: bool, sent: bool)
    requires Inv(s)
    ensures Inv(ConnReg(s, addr, id, ts, memory, sent).0)
  {
    var g := GroupWithId(s.groups, id);
    if g < |s.groups| && (FindByAddr(s.groups, addr).InConn? || memory) {
      var (s1, c) := Joined(s, g, addr, ts);
      assert s.groups[0..] == s.groups;
      assert Inv(s1);
    }
  }

  lemma {:induction false} LiveConnsKeepsDistinct(cs: seq<Conn>, ts: int)
    requires DistinctAddrs(cs)
    ensures DistinctAddrs(LiveConns(cs, ts))
  {
    if cs != [] {
      LiveConnsKeepsDistinct(cs[1..], ts);
      var rest := LiveConns(cs[1..], ts);
      forall j | 0 <= j < |rest| ensures rest[j].addr != cs[0].addr {
        assert rest[j] in rest && rest[j] in cs[1..];
      }
    }
  }

  lemma {:induction false} CleanupKeepsInv(s: State, ts: int)
    requires Inv(s)
    ensures Inv(Cleanup(s, ts))
  {
    if |s.groups| == 1 {
      var g := s.groups[0];
      var live := LiveConns(g.conns, ts);
      LiveConnsKeepsDistinct(g.conns, ts);
      assert LiveGroups(s.groups[1..], ts) == [];
      forall c | 0 <= c < |live| ensures |live[c].log| < ACK_INTERVAL {
        assert live[c] in live && live[c] in g.conns;
      }
    }
  }

  lemma {:induction false} DataKeepsInv(s: State, addr: Addr, ts: int, n: nat, keepalive: bool, sn: int,
                                        lost: bool)
    requires Inv(s) && sn < TWO31
    ensures Inv(Data(s, addr, ts, n, keepalive, sn, lost).0)
  {
    var f := FindByAddr(s.groups, addr);
    if f.InConn? {
      assert f.g == 0;
    }
  }

  lemma {:induction false} PeerDroppedKeepsInv(s: State, g: nat)
    requires Inv(s)
    ensures Inv(PeerDropped(s, g))
  {
  }

  lemma {:induction false} StepKeepsInv(s: State, e: Event, ts: int)
    requires Inv(s) && Sane(e)
    ensures Inv(Step(s, e, ts).0)
  {
    match e
    case Reg1From(addr, id, draws, sent) =>
      if s.count < MAX_GROUPS {
        GroupRegClosedForm(s, addr, id, ts, draws, sent);
      }
    case Reg2From(addr, id, memory, sent) => ConnRegKeepsInv(s, addr, id, ts, memory, sent);
    case DataFrom(addr, n, keepalive, sn, lost) =>
      DataKeepsInv(s, addr, ts, n, keepalive, sn, lost);
    case FatalReply(g) => PeerDroppedKeepsInv(s, g);
    case ServerGone(g) =>
    case Tick => CleanupKeepsInv(s, ts);
  }

  /** In every reachable state there is at most one group, no address occurs in
      two connections, and fewer than ten numbers wait to be acknowledged. */
  lemma {:induction false} OneGroupDistinctMembers(es: seq<Timed>)
    requires SaneRun(es)
    ensures Inv(Run(es))
  {
    if es != [] {
      var k := |es| - 1;
      OneGroupDistinctMembers(es[..k]);
      StepKeepsInv(Run(es[..k]), es[k].e, es[k].ts);
    }
  }

  // ---- the group counter ----

  /** The event makes a group and then fails to send its REG2. */
  predicate LosesReg2(s: State, e: Event) {
    e.Reg1From? && s.count < MAX_GROUPS && e.draws != [] && !e.sent
  }

  function LostReg2s(es: seq<Timed>): nat
    requires SaneRun(es)
  {
    if es == [] then 0
    else
      var k := |es| - 1;
      LostReg2s(es[..k]) + (if LosesReg2(Run(es[..k]), es[k].e) then 1 else 0)
  }

  lemma {:induction false} StepMovesCount(s: State, e: Event, ts: int)
    requires Inv(s) && Sane(e)
    ensures var s' := Step(s, e, ts).0;
            s'.count - |s'.groups| == s.count - |s.groups| - (if LosesReg2(s, e) then 1 else 0)
  {
    match e
    case Reg1From(addr, id, draws, sent) =>
      if s.count < MAX_GROUPS {
        GroupRegClosedForm(s, addr, id, ts, draws, sent);
      }
    case Reg2From(addr, id, memory, sent) =>
    case DataFrom(addr, n, keepalive, sn, lost) =>
    case FatalReply(g) =>
    case ServerGone(g) =>
    case Tick =>
  }

  /** The counter runs below the true number of groups by one for every REG2
      that could not be sent.  So it is exact exactly when none was lost, and it
      never reaches the limit: no registration is rejected for it.  Once a REG2
      was lost it never again says that there is a group. */
  lemma {:induction false} GroupCountLaw(es: seq<Timed>)
    requires SaneRun(es)
    ensures Run(es).count == |Run(es).groups| - LostReg2s(es)
    ensures Run(es).count == |Run(es).groups| <==> LostReg2s(es) == 0
    ensures Run(es).count > 0 <==> Run(es).groups != [] && LostReg2s(es) == 0
    ensures Run(es).count <= 1 < MAX_GROUPS
  {
    if es != [] {
      var k := |es| - 1;
      GroupCountLaw(es[..k]);
      OneGroupDistinctMembers(es[..k]);
      StepMovesCount(Run(es[..k]), es[k].e, es[k].ts);
    }
    OneGroupDistinctMembers(es);
  }

  // ---- members presented the id ----

  predicate PresentedBy(es: seq<Timed>, addr: Addr, id: Id) {
    exists k :: 0 <= k < |es| && es[k].e.Reg2From? && es[k].e.addr == addr && es[k].e.id == id
  }

  predicate Has(cs: seq<Conn>, addr: Addr) {
    ConnAt(cs, addr) < |cs|
  }

  /** Whoever is a member in the new state was one before, in a group with the
      same id, or joins it by this very event. */
  predicate NoStranger(s: State, e: Event, s': State, addr: Addr) {
    |s'.groups| == 1 && Has(s'.groups[0].conns, addr) ==>
      || (e.Reg2From? && e.addr == addr && e.id == s'.groups[0].id)
      || (|s.groups| == 1 && s.groups[0].id == s'.groups[0].id && Has(s.groups[0].conns, addr))
  }

  lemma {:induction false} SameAddrs(cs: seq<Conn>, c: nat, x: Conn, addr: Addr)
    requires c < |cs| && x.addr == cs[c].addr
    ensures Has(cs[c := x], addr) <==> Has(cs, addr)
  {
    var at, at' := ConnAt(cs, addr), ConnAt(cs[c := x], addr);
    if at < |cs| {
      assert cs[c := x][at].addr == addr;
    }
  }

  lemma {:induction false} FewerAddrs(cs: seq<Conn>, cs': seq<Conn>, addr: Addr)
    requires Has(cs', addr) && forall x :: x in cs' ==> x in cs
    ensures Has(cs, addr)
  {
    assert cs'[ConnAt(cs', addr)] in cs;
  }

  lemma {:induction false} DataAdmitsNone(s: State, ts: int, e: Event, addr: Addr)
    requires Inv(s) && Sane(e) && e.DataFrom?
    ensures NoStranger(s, e, Step(s, e, ts).0, addr)
  {
    var f := FindByAddr(s.groups, e.addr);
    if f.InConn? {
      var c := s.groups[0].conns[f.c].(lastRcvd := ts);
      SameAddrs(s.groups[0].conns, f.c, c, addr);
      if e.sn >= 0 {
        SameAddrs(s.groups[0].conns, f.c, Registered(c, e.sn).0, addr);
      }
    }
  }

  lemma {:induction false} DropAdmitsNone(s: State, e: Event, ts: int, addr: Addr)
    requires Inv(s) && e.FatalReply?
    ensures NoStranger(s, e, Step(s, e, ts).0, addr)
  {
    var s' := PeerDropped(s, e.g);
    if |s'.groups| == 1 && Has(s'.groups[0].conns, addr) {
      FewerAddrs(s.groups[0].conns, s'.groups[0].conns, addr);
    }
  }

  lemma {:induction false} TickAdmitsNone(s: State, e: Event, ts: int, addr: Addr)
    requires Inv(s) && e.Tick?
    ensures NoStranger(s, e, Step(s, e, ts).0, addr)
  {
    var s' := Cleanup(s, ts);
    if s' != s && |s'.groups| == 1 && Has(s'.groups[0].conns, addr) {
      assert LiveGroups(s.groups[1..], ts) == [];
      FewerAddrs(s.groups[0].conns, s'.groups[0].conns, addr);
    }
  }

  lemma JoinedAdmitsOne(s: State, from: Addr, ts: int, addr: Addr)
    requires Inv(s) && |s.groups| == 1
    ensures var s1 := Joined(s, 0, from, ts).0;
            && s1.groups[0].id == s.groups[0].id
            && (addr != from && Has(s1.groups[0].conns, addr) ==> Has(s.groups[0].conns, addr))
  {
    var (s1, k) := Joined(s, 0, from, ts);
    var was, joined := s.groups[0].conns, s1.groups[0].conns;
    if |joined| == |was| {
      SameAddrs(was, k, joined[k], addr);
    } else if addr != from && Has(joined, addr) {
      assert was[ConnAt(joined, addr) - 1].addr == addr;
    }
  }

  lemma {:induction false} ConnRegAdmitsOne(s: State, e: Event, ts: int, addr: Addr)
    requires Inv(s) && e.Reg2From?
    ensures NoStranger(s, e, Step(s, e, ts).0, addr)
  {
    hide Joined, FindByAddr, ConnAt;
    var g := GroupWithId(s.groups, e.id);
    if g < |s.groups| && (FindByAddr(s.groups, e.addr).InConn? || e.memory) {
      JoinedAdmitsOne(s, e.addr, ts, addr);
      var (s1, k) := Joined(s, g, e.addr, ts);
      var joined := s1.groups[0].conns;
      if Has(joined[k + 1..], addr) {
        FewerAddrs(joined, joined[k + 1..], addr);
      }
    }
  }

  lemma {:induction false} StepAdmitsNoStranger(s: State, e: Event, ts: int, addr: Addr)
    requires Inv(s) && Sane(e)
    ensures NoStranger(s, e, Step(s, e, ts).0, addr)
  {
    match e
    case Reg1From(from, id, draws, sent) =>
      if s.count < MAX_GROUPS {
        GroupRegClosedForm(s, from, id, ts, draws, sent);
      }
    case Reg2From(_, _, _, _) => ConnRegAdmitsOne(s, e, ts, addr);
    case DataFrom(_, _, _, _, _) => DataAdmitsNone(s, ts, e, addr);
    case FatalReply(_) => DropAdmitsNone(s, e, ts, addr);
    case ServerGone(_) =>
    case Tick => TickAdmitsNone(s, e, ts, addr);
  }

  /** Every address in a group presented that group's full id in a REG2. */
  lemma {:induction false} MembersPresentedTheId(es: seq<Timed>, g: nat, addr: Addr)
    requires SaneRun(es)
    requires g < |Run(es).groups| && Has(Run(es).groups[g].conns, addr)
    ensures PresentedBy(es, addr, Run(es).groups[g].id)
  {
    OneGroupDistinctMembers(es);
    var k := |es| - 1;
    var s, e, id := Run(es[..k]), es[k].e, Run(es).groups[g].id;
    OneGroupDistinctMembers(es[..k]);
    StepAdmitsNoStranger(s, e, es[k].ts, addr);
    if !(e.Reg2From? && e.addr == addr && e.id == id) {
      MembersPresentedTheId(es[..k], 0, addr);
      var j :| 0 <= j < k && es[..k][j].e.Reg2From? && es[..k][j].e.addr == addr && es[..k][j].e.id == id;
      assert es[j] == es[..k][j];
    }
  }
}
