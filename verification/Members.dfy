/** How many connections a group has: as many as addresses presented its id, and
    no limit. */
module Members {
  import opened Wire
  import opened Receiver
  import opened Membership

  const MAX_CONNS_PER_GROUP := 8

  function Addrs(cs: seq<Conn>): set<Addr> {
    set c | c in cs :: c.addr
  }

  /** The members of the group, if there is one. */
  function MembersOf(s: State): set<Addr> {
    if |s.groups| == 1 then Addrs(s.groups[0].conns) else {}
  }

  /** The addresses that presented the id of the group since it was made. */
  function Presenters(es: seq<Timed>): set<Addr>
    requires SaneRun(es)
  {
    if es == [] then {}
    else
      var k := |es| - 1;
      var s, e := Run(es[..k]), es[k].e;
      if e.Reg1From? && s.count < MAX_GROUPS then {}
      else if e.Reg2From? && |s.groups| == 1 && e.id == s.groups[0].id then Presenters(es[..k]) + {e.addr}
      else Presenters(es[..k])
  }

  /** The event neither fails to register anyone nor takes a member away: memory
      and sending hold out, no reply fails fatally, and nobody is timed out. */
  predicate Gentle(s: State, e: Event, ts: int) {
    match e
    case Reg1From(_, _, _, _) => true
    case Reg2From(_, _, memory, sent) => memory && sent
    case DataFrom(_, _, _, _, lost) => !lost
    case FatalReply(_) => false
    case ServerGone(_) => false
    case Tick =>
      forall g, c :: 0 <= g < |s.groups| && 0 <= c < |s.groups[g].conns| ==>
        ts <= s.groups[g].conns[c].lastRcvd + CONN_TIMEOUT
  }

  ghost predicate GentleRun(es: seq<Timed>)
    requires SaneRun(es)
  {
    forall k :: 0 <= k < |es| ==> Gentle(Run(es[..k]), es[k].e, es[k].ts)
  }

  // ---- the law ----

  lemma {:induction false} AddrsCount(cs: seq<Conn>)
    requires DistinctAddrs(cs)
    ensures |Addrs(cs)| == |cs|
  {
    if cs != [] {
      var k := |cs| - 1;
      AddrsCount(cs[..k]);
      assert cs == cs[..k] + [cs[k]];
      assert Addrs(cs) == Addrs(cs[..k]) + {cs[k].addr};
    }
  }

  lemma HasAddr(cs: seq<Conn>, addr: Addr)
    ensures addr in Addrs(cs) <==> Has(cs, addr)
  {
    if addr in Addrs(cs) {
      var c :| c in cs && c.addr == addr;
      var i :| 0 <= i < |cs| && cs[i] == c;
    }
  }

  lemma SameMembers(cs: seq<Conn>, c: nat, x: Conn)
    requires c < |cs| && x.addr == cs[c].addr
    ensures Addrs(cs[c := x]) == Addrs(cs)
  {
    forall addr ensures addr in Addrs(cs[c := x]) <==> addr in Addrs(cs) {
      HasAddr(cs, addr);
      HasAddr(cs[c := x], addr);
      SameAddrs(cs, c, x, addr);
    }
  }

  lemma {:induction false} AllLive(cs: seq<Conn>, ts: int)
    requires forall c :: 0 <= c < |cs| ==> ts <= cs[c].lastRcvd + CONN_TIMEOUT
    ensures LiveConns(cs, ts) == cs
  {
    if cs != [] {
      AllLive(cs[1..], ts);
    }
  }

  lemma JoinMembers(s: State, e: Event, ts: int)
    requires Inv(s) && e.Reg2From? && e.memory && e.sent && |s.groups| == 1 && e.id == s.groups[0].id
    ensures var s' := Step(s, e, ts).0;
            |s'.groups| == 1 && s'.groups[0].id == e.id && MembersOf(s') == MembersOf(s) + {e.addr}
  {
    var cs := s.groups[0].conns;
    var c := ConnAt(cs, e.addr);
    assert GroupWithId(s.groups, e.id) == 0;
    if c < |cs| {
      SameMembers(cs, c, cs[c].(lastRcvd := ts));
      HasAddr(cs, e.addr);
    } else {
      AddrsPushed(cs, Conn(e.addr, ts, []));
    }
  }

  lemma AddrsPushed(cs: seq<Conn>, c: Conn)
    ensures Addrs([c] + cs) == Addrs(cs) + {c.addr}
  {
    forall addr | addr in Addrs(cs) + {c.addr} ensures addr in Addrs([c] + cs) {
      if addr == c.addr {
        assert c in [c] + cs;
      } else {
        var x :| x in cs && x.addr == addr;
        assert x in [c] + cs;
      }
    }
  }

  lemma TickMembers(s: State, ts: int)
    requires Inv(s) && Gentle(s, Tick, ts)
    ensures MembersOf(Cleanup(s, ts)) == MembersOf(s)
  {
    if |s.groups| == 1 {
      AllLive(s.groups[0].conns, ts);
      assert LiveGroups(s.groups[1..], ts) == [];
    }
  }

  lemma DataMembers(s: State, e: Event, ts: int)
    requires Inv(s) && Sane(e) && e.DataFrom? && !e.lost
    ensures MembersOf(Step(s, e, ts).0) == MembersOf(s)
  {
    var f := FindByAddr(s.groups, e.addr);
    if f.InConn? {
      var cs := s.groups[0].conns;
      var c := cs[f.c].(lastRcvd := ts);
      SameMembers(cs, f.c, c);
      if e.sn >= 0 {
        SameMembers(cs, f.c, Registered(c, e.sn).0);
      }
    }
  }

  /** The event makes a new group of every address a stranger. */
  predicate StartsOver(s: State, e: Event) {
    e.Reg1From? && s.count < MAX_GROUPS
  }

  predicate Presents(s: State, e: Event) {
    e.Reg2From? && |s.groups| == 1 && e.id == s.groups[0].id
  }

  lemma StartedOver(s: State, e: Event, ts: int)
    requires StartsOver(s, e)
    ensures MembersOf(Step(s, e, ts).0) == {}
  {
    GroupRegClosedForm(s, e.addr, e.id, ts, e.draws, e.sent);
  }

  lemma GentleMembers(s: State, e: Event, ts: int)
    requires Inv(s) && Sane(e) && Gentle(s, e, ts) && !StartsOver(s, e)
    ensures MembersOf(Step(s, e, ts).0) == MembersOf(s) + if Presents(s, e) then {e.addr} else {}
  {
    match e
    case Reg1From(_, _, _, _) =>
    case Reg2From(_, _, _, _) =>
      if Presents(s, e) {
        JoinMembers(s, e, ts);
      }
    case DataFrom(_, _, _, _, _) => DataMembers(s, e, ts);
    case FatalReply(_) =>
    case ServerGone(_) =>
    case Tick => TickMembers(s, ts);
  }

  /** A member of the new state was one before, or presents the id now. */
  lemma FewMembers(s: State, e: Event, ts: int)
    requires Inv(s) && Sane(e) && !StartsOver(s, e)
    ensures MembersOf(Step(s, e, ts).0) <= MembersOf(s) + if Presents(s, e) then {e.addr} else {}
  {
    var s' := Step(s, e, ts).0;
    forall addr | addr in MembersOf(s')
      ensures addr in MembersOf(s) + if Presents(s, e) then {e.addr} else {}
    {
      HasAddr(s'.groups[0].conns, addr);
      StepAdmitsNoStranger(s, e, ts, addr);
      if |s.groups| == 1 {
        HasAddr(s.groups[0].conns, addr);
      }
      if e.Reg2From? {
        SameGroup(s, e, ts);
      }
    }
  }

  lemma SameGroup(s: State, e: Event, ts: int)
    requires Inv(s) && e.Reg2From?
    ensures var s' := Step(s, e, ts).0;
            |s'.groups| == |s.groups| && (|s.groups| == 1 ==> s'.groups[0].id == s.groups[0].id)
  {
    var g := GroupWithId(s.groups, e.id);
    if g < |s.groups| && (FindByAddr(s.groups, e.addr).InConn? || e.memory) {
      JoinedAdmitsOne(s, e.addr, ts, e.addr);
    }
  }

  /** A group never has more connections than addresses presented its id since
      it was made; and just as many, one for each, as long as memory and sending
      hold out, no reply fails fatally and nobody is timed out. */
  lemma {:induction false} MembersArePresenters(es: seq<Timed>)
    requires SaneRun(es)
    ensures MembersOf(Run(es)) <= Presenters(es)
    ensures GentleRun(es) ==> MembersOf(Run(es)) == Presenters(es)
  {
    if es != [] {
      var k := |es| - 1;
      var s, e := Run(es[..k]), es[k].e;
      MembersArePresenters(es[..k]);
      OneGroupDistinctMembers(es[..k]);
      if StartsOver(s, e) {
        StartedOver(s, e, es[k].ts);
      } else {
        FewMembers(s, e, es[k].ts);
        if GentleRun(es) {
          GentlePrefix(es);
          GentleMembers(s, e, es[k].ts);
        }
      }
    }
  }

  lemma GentlePrefix(es: seq<Timed>)
    requires SaneRun(es) && es != [] && GentleRun(es)
    ensures GentleRun(es[..|es| - 1])
  {
    var p := es[..|es| - 1];
    forall k | 0 <= k < |p| ensures Gentle(Run(p[..k]), p[k].e, p[k].ts) {
      assert p[..k] == es[..k];
    }
  }

  lemma ConnsArePresenters(es: seq<Timed>)
    requires SaneRun(es) && |Run(es).groups| == 1
    ensures |Run(es).groups[0].conns| <= |Presenters(es)|
    ensures GentleRun(es) ==> |Run(es).groups[0].conns| == |Presenters(es)|
  {
    MembersArePresenters(es);
    OneGroupDistinctMembers(es);
    AddrsCount(Run(es).groups[0].conns);
    var a, b := MembersOf(Run(es)), Presenters(es);
    assert a + (b - a) == b;
  }

  // ---- no limit ----

  /** One REG1, then a REG2 from each of n addresses. */
  function Crowd(id: Id, half: Half, n: nat): (es: seq<Timed>)
    ensures SaneRun(es) && |es| == n + 1
  {
    if n == 0 then [At(0, Reg1From(Addr(0, 0), id, [half], true))]
    else Crowd(id, half, n - 1) + [At(0, Reg2From(Addr(n, 0), id[..HALF] + half, true, true))]
  }

  /** One more address joins the group of a gentle run. */
  lemma OneJoins(p: seq<Timed>, e: Event)
    requires SaneRun(p) && GentleRun(p) && e.Reg2From? && e.memory && e.sent
    requires |Run(p).groups| == 1 && e.id == Run(p).groups[0].id
    ensures var es := p + [At(0, e)];
            && SaneRun(es) && GentleRun(es)
            && |Run(es).groups| == 1 && Run(es).groups[0].id == e.id
            && Presenters(es) == Presenters(p) + {e.addr}
  {
    hide Step, Inv;
    var es := p + [At(0, e)];
    assert es[..|p|] == p;
    OneGroupDistinctMembers(p);
    JoinMembers(Run(p), e, 0);
    GentleGrows(es);
  }

  lemma GentleGrows(es: seq<Timed>)
    requires SaneRun(es) && es != []
    requires var k := |es| - 1; GentleRun(es[..k]) && Gentle(Run(es[..k]), es[k].e, es[k].ts)
    ensures GentleRun(es)
  {
    hide Run, Gentle;
    var p := es[..|es| - 1];
    forall k | 0 <= k < |p| ensures Gentle(Run(es[..k]), es[k].e, es[k].ts) {
      assert p[..k] == es[..k] && p[k] == es[k];
    }
  }

  lemma {:induction false} CrowdJoins(id: Id, half: Half, n: nat)
    ensures var es := Crowd(id, half, n);
            && GentleRun(es)
            && |Run(es).groups| == 1 && Run(es).groups[0].id == id[..HALF] + half
            && Presenters(es) == set k | 1 <= k <= n :: Addr(k, 0)
  {
    hide Run, Presenters, GentleRun;
    if n == 0 {
      CrowdStarts(id, half);
    } else {
      CrowdJoins(id, half, n - 1);
      OneJoins(Crowd(id, half, n - 1), Reg2From(Addr(n, 0), id[..HALF] + half, true, true));
    }
  }

  lemma CrowdStarts(id: Id, half: Half)
    ensures var es := Crowd(id, half, 0);
            && GentleRun(es)
            && |Run(es).groups| == 1 && Run(es).groups[0].id == id[..HALF] + half
            && Presenters(es) == {}
  {
    var es := Crowd(id, half, 0);
    assert es[..0] == [];
    GroupRegClosedForm(INITIAL, Addr(0, 0), id, 0, [half], true);
    assert Run(es) == Step(INITIAL, es[0].e, 0).0;
  }

  lemma {:induction false} CountTo(n: nat)
    ensures |set k | 1 <= k <= n :: Addr(k, 0)| == n
  {
    var all := set k | 1 <= k <= n :: Addr(k, 0);
    if n > 0 {
      CountTo(n - 1);
      assert all == (set k | 1 <= k <= n - 1 :: Addr(k, 0)) + {Addr(n, 0)};
    } else {
      assert all == {};
    }
  }

  /** The limit on connections per group is never enforced: a group grows to any
      size, in particular past it. */
  lemma GroupsGrowWithoutLimit(n: nat)
    ensures exists es :: SaneRun(es) && |Run(es).groups| == 1 && |Run(es).groups[0].conns| == n
    ensures n > MAX_CONNS_PER_GROUP ==>
      exists es :: SaneRun(es) && |Run(es).groups| == 1 && |Run(es).groups[0].conns| > MAX_CONNS_PER_GROUP
  {
    var id: Id := seq(ID_LEN, _ => 0);
    var half: Half := seq(HALF, _ => 0);
    CrowdJoins(id, half, n);
    ConnsArePresenters(Crowd(id, half, n));
    CountTo(n);
  }
}
