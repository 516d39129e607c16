/** Who is answered and who is dropped: the most recent peer of the group, the
    replies to it, and the ways a member can be lost. */
module Peers {
  import opened Options
  import opened Wire
  import opened Receiver
  import opened Membership
  import opened Members
  import opened AckPath

  // ---- the most recent peer ----

  /** The event makes addr the most recent peer: it opened the group, was told
      that it joined, or sent an SRT packet as a member. */
  predicate BecomesPeer(s: State, e: Event) {
    match e
    case Reg1From(_, _, draws, sent) => s.count < MAX_GROUPS && draws != [] && sent
    case Reg2From(addr, id, memory, sent) =>
      |s.groups| == 1 && s.groups[0].id == id && sent && (memory || Member(s, addr))
    case DataFrom(addr, n, keepalive, _, _) => Member(s, addr) && !keepalive && n >= SRT_MIN_LEN
    case FatalReply(_) => false
    case ServerGone(_) => false
    case Tick => false
  }

  function LastPeer(es: seq<Timed>): Option<Addr>
    requires SaneRun(es)
  {
    if es == [] then None
    else
      var k := |es| - 1;
      var e := es[k].e;
      if BecomesPeer(Run(es[..k]), e) then
        match e
        case Reg1From(addr, _, _, _) => Some(addr)
        case Reg2From(addr, _, _, _) => Some(addr)
        case DataFrom(addr, _, _, _, _) => Some(addr)
        case _ => None
      else LastPeer(es[..k])
  }

  lemma PeerFound(s: State, addr: Addr)
    requires |s.groups| == 1
    ensures FindByAddr(s.groups, addr).InConn? <==> Member(s, addr)
    ensures FindByAddr(s.groups, addr).InConn? ==> FindByAddr(s.groups, addr).g == 0
  {
  }

  lemma PeerStep(s: State, e: Event, ts: int)
    requires Inv(s) && Sane(e) && |Step(s, e, ts).0.groups| == 1
    ensures var s' := Step(s, e, ts).0;
            if BecomesPeer(s, e) then s'.groups[0].lastAddr == e.addr
            else |s.groups| == 1 && s'.groups[0].lastAddr == s.groups[0].lastAddr
  {
    match e
    case Reg1From(addr, id, draws, sent) =>
      if s.count < MAX_GROUPS {
        GroupRegClosedForm(s, addr, id, ts, draws, sent);
      }
    case Reg2From(addr, _, _, _) =>
      if |s.groups| == 1 {
        PeerFound(s, addr);
      }
    case DataFrom(addr, _, _, _, _) =>
      if |s.groups| == 1 {
        PeerFound(s, addr);
      }
    case FatalReply(_) =>
    case ServerGone(_) =>
    case Tick =>
      if |s.groups| == 1 {
        assert LiveGroups(s.groups[1..], ts) == [];
      }
  }

  /** In every run the group answers to the latest peer that opened it, joined it
      or sent an SRT packet. */
  lemma {:induction false} AnswersGoToTheLastPeer(es: seq<Timed>)
    requires SaneRun(es) && |Run(es).groups| == 1
    ensures LastPeer(es) == Some(Run(es).groups[0].lastAddr)
    ensures Destinations(Run(es).groups[0], false) == [LastPeer(es).value]
  {
    hide Step, Inv, BecomesPeer;
    if es != [] {
      var k := |es| - 1;
      var s, e := Run(es[..k]), es[k].e;
      OneGroupDistinctMembers(es[..k]);
      PeerStep(s, e, es[k].ts);
      if BecomesPeer(s, e) {
        PeerEvent(s, e);
      } else {
        AnswersGoToTheLastPeer(es[..k]);
      }
    }
  }

  lemma PeerEvent(s: State, e: Event)
    requires BecomesPeer(s, e)
    ensures e.Reg1From? || e.Reg2From? || e.DataFrom?
  {
  }

  /** In every run an SRT ACK goes to every member, exactly once. */
  lemma AcksGoToEveryMember(es: seq<Timed>)
    requires SaneRun(es) && |Run(es).groups| == 1
    ensures var to := Destinations(Run(es).groups[0], true);
            && (forall addr :: addr in to <==> Member(Run(es), addr))
            && (forall i, j :: 0 <= i < j < |to| ==> to[i] != to[j])
  {
    OneGroupDistinctMembers(es);
    var cs := Run(es).groups[0].conns;
    var to := Destinations(Run(es).groups[0], true);
    forall addr ensures addr in to <==> Member(Run(es), addr) {
      if Has(cs, addr) {
        assert to[ConnAt(cs, addr)] == addr;
      }
    }
  }

  /** A keepalive is echoed to a member and to nobody else, and nothing else is. */
  lemma KeepalivesAreEchoed(es: seq<Timed>, e: Event, ts: int)
    requires SaneRun(es) && Sane(e)
    ensures Step(Run(es), e, ts).1 == [Echo] <==>
      e.DataFrom? && e.keepalive && Member(Run(es), e.addr)
  {
    OneGroupDistinctMembers(es);
    var s := Run(es);
    match e
    case Reg1From(addr, id, draws, sent) =>
      if s.count < MAX_GROUPS {
        GroupRegClosedForm(s, addr, id, ts, draws, sent);
      }
    case DataFrom(addr, _, _, _, _) =>
      if |s.groups| == 1 {
        PeerFound(s, addr);
      }
    case _ =>
  }

  // ---- losing members ----

  lemma WithoutMember(cs: seq<Conn>, c: nat)
    requires DistinctAddrs(cs) && c < |cs|
    ensures Addrs(Without(cs, c)) == Addrs(cs) - {cs[c].addr}
  {
    var r := Without(cs, c);
    forall addr | addr in Addrs(cs) - {cs[c].addr} ensures addr in Addrs(r) {
      var x :| x in cs && x.addr == addr;
      var i :| 0 <= i < |cs| && cs[i] == x;
      assert r[if i < c then i else i - 1] == x;
    }
    forall addr | addr in Addrs(r) ensures addr in Addrs(cs) - {cs[c].addr} {
      var x :| x in r && x.addr == addr;
      var i :| 0 <= i < |r| && r[i] == x;
      assert cs[if i < c then i else i + 1] == x;
    }
  }

  /** A fatal error while answering takes the most recent peer out of the group,
      if it is a member, and nobody else. */
  lemma FatalReplyDropsTheLastPeer(es: seq<Timed>, ts: int)
    requires SaneRun(es) && |Run(es).groups| == 1
    ensures LastPeer(es).Some?
    ensures MembersOf(Step(Run(es), FatalReply(0), ts).0) == MembersOf(Run(es)) - {LastPeer(es).value}
  {
    hide Run, LastPeer, SaneRun;
    OneGroupDistinctMembers(es);
    AnswersGoToTheLastPeer(es);
    var g := Run(es).groups[0];
    var c := ConnAt(g.conns, g.lastAddr);
    HasAddr(g.conns, g.lastAddr);
    if c < |g.conns| {
      WithoutMember(g.conns, c);
    }
  }

  /** When the SRT server cannot be reached for a member's SRT packet, or is gone,
      the group is given up; a packet from anybody else, a keepalive or a short
      packet does not do that. */
  lemma LostServerEndsTheGroup(es: seq<Timed>, e: Event, ts: int)
    requires SaneRun(es) && Sane(e) && |Run(es).groups| == 1
    requires (e.DataFrom? && e.lost) || (e.ServerGone? && e.g == 0)
    ensures Step(Run(es), e, ts).0.groups == [] <==>
      e.ServerGone? || (Member(Run(es), e.addr) && !e.keepalive && e.n >= SRT_MIN_LEN)
  {
    if e.DataFrom? {
      PeerFound(Run(es), e.addr);
    }
  }

  /** A REG3 that cannot be sent: a newcomer stays out and nobody else is touched,
      but for one who was a member already the list is cut behind it, so that all
      who joined after it are lost too. */
  lemma FailedReg3Cuts(es: seq<Timed>, addr: Addr, id: Id, memory: bool, ts: int)
    requires SaneRun(es) && |Run(es).groups| == 1 && id == Run(es).groups[0].id
    requires memory || Member(Run(es), addr)
    ensures var was, now := Run(es).groups[0].conns, Step(Run(es), Reg2From(addr, id, memory, false), ts).0.groups[0].conns;
            now == if Member(Run(es), addr) then was[ConnAt(was, addr) + 1..] else was
  {
    var s := Run(es);
    assert GroupWithId(s.groups, id) == 0;
    PeerFound(s, addr);
    var (s1, c) := Joined(s, 0, addr, ts);
    if Member(s, addr) {
      assert s1.groups[0].conns[c + 1..] == s.groups[0].conns[c + 1..];
    } else {
      assert s1.groups[0].conns[1..] == s.groups[0].conns;
    }
  }

  /** A group of n members, the latest first. */
  predicate InOrder(s: State, id: Id, n: nat) {
    && |s.groups| == 1 && s.groups[0].id == id && |s.groups[0].conns| == n
    && forall i :: 0 <= i < n ==> s.groups[0].conns[i].addr == Addr(n - i, 0)
  }

  lemma OneMoreInOrder(s: State, id: Id, n: nat)
    requires n > 0 && InOrder(s, id, n - 1)
    ensures InOrder(Step(s, Reg2From(Addr(n, 0), id, true, true), 0).0, id, n)
  {
    var e := Reg2From(Addr(n, 0), id, true, true);
    assert !Member(s, e.addr);
    NewcomerLeads(s, e, 0);
    SameId(s, e, 0);
  }

  lemma SameId(s: State, e: Event, ts: int)
    requires |s.groups| == 1 && e.Reg2From? && e.memory && e.sent && e.id == s.groups[0].id
    ensures var s' := Step(s, e, ts).0; |s'.groups| == 1 && s'.groups[0].id == e.id
  {
    assert GroupWithId(s.groups, e.id) == 0;
    PeerFound(s, e.addr);
  }

  lemma {:induction false} CrowdInOrder(id: Id, half: Half, n: nat)
    ensures InOrder(Run(Crowd(id, half, n)), id[..HALF] + half, n)
  {
    hide Run, Step, InOrder;
    if n > 0 {
      CrowdInOrder(id, half, n - 1);
      CrowdStep(id, half, n);
      OneMoreInOrder(Run(Crowd(id, half, n - 1)), id[..HALF] + half, n);
    } else {
      NobodyYet(id, half);
    }
  }

  lemma CrowdStep(id: Id, half: Half, n: nat)
    requires n > 0
    ensures var e := Reg2From(Addr(n, 0), id[..HALF] + half, true, true);
            Run(Crowd(id, half, n)) == Step(Run(Crowd(id, half, n - 1)), e, 0).0
  {
    var p := Crowd(id, half, n - 1);
    assert Crowd(id, half, n)[..|p|] == p;
  }

  lemma NobodyYet(id: Id, half: Half)
    ensures InOrder(Run(Crowd(id, half, 0)), id[..HALF] + half, 0)
  {
    var es := Crowd(id, half, 0);
    assert es[..0] == [];
    GroupRegClosedForm(INITIAL, Addr(0, 0), id, 0, [half], true);
    assert Run(es) == Step(INITIAL, es[0].e, 0).0;
  }

  lemma NewcomerLeads(s: State, e: Event, ts: int)
    requires |s.groups| == 1 && e.Reg2From? && e.memory && e.sent && e.id == s.groups[0].id
    requires !Member(s, e.addr)
    ensures Step(s, e, ts).0.groups[0].conns == [Conn(e.addr, ts, [])] + s.groups[0].conns
  {
    assert GroupWithId(s.groups, e.id) == 0;
    PeerFound(s, e.addr);
  }

  ghost predicate LosesEverybody(es: seq<Timed>, addr: Addr, id: Id, n: nat) {
    && SaneRun(es) && |Run(es).groups| == 1 && Run(es).groups[0].id == id
    && |Run(es).groups[0].conns| == n && Member(Run(es), addr)
    && var s' := Step(Run(es), Reg2From(addr, id, true, false), 0).0;
       |s'.groups| == 1 && s'.groups[0].conns == []
  }

  /** For every n there is a run with n members that one failed REG3 leaves with
      none: the one that goes to the member that joined first. */
  lemma FailedReg3LosesEverybody(n: nat)
    requires n > 0
    ensures exists es, addr, id :: LosesEverybody(es, addr, id, n)
  {
    var id: Id := seq(ID_LEN, _ => 0);
    var half: Half := seq(HALF, _ => 0);
    var es, addr := Crowd(id, half, n), Addr(1, 0);
    var full: Id := id[..HALF] + half;
    CrowdInOrder(id, half, n);
    var cs := Run(es).groups[0].conns;
    assert cs[n - 1].addr == addr;
    assert ConnAt(cs, addr) == n - 1;
    FailedReg3Cuts(es, addr, full, true, 0);
    assert LosesEverybody(es, addr, full, n);
  }
}
