/** What keeps a member in its group: every packet heard from it, told on the
    list of events alone. */
module Contacts {
  import opened Options
  import opened Wire
  import opened Receiver
  import opened Membership
  import opened AckPath

  /** The event brings a packet from addr: data, control or keepalive of any
      length, or a REG2 with this group's id. */
  predicate IsContact(e: Event, addr: Addr, id: Id) {
    (e.DataFrom? && e.addr == addr) || (e.Reg2From? && e.addr == addr && e.id == id)
  }

  /** When addr was last in contact, if ever. */
  function LastContact(es: seq<Timed>, addr: Addr, id: Id): Option<int> {
    if es == [] then None
    else if IsContact(es[|es| - 1].e, addr, id) then Some(es[|es| - 1].ts)
    else LastContact(es[..|es| - 1], addr, id)
  }

  /** The member's connection. */
  function ConnOf(s: State, addr: Addr): Conn
    requires Member(s, addr)
  {
    s.groups[0].conns[ConnAt(s.groups[0].conns, addr)]
  }

  lemma SameConn(s: State, s': State, addr: Addr)
    requires Inv(s) && Member(s', addr) && |s.groups| == 1 && ConnOf(s', addr) in s.groups[0].conns
    ensures Member(s, addr) && ConnOf(s', addr) == ConnOf(s, addr)
  {
    TheMember(s.groups[0].conns, ConnOf(s', addr));
  }

  /** What an event does to the time a member was last heard. */
  ghost predicate TimeMoves(s: State, e: Event, ts: int, s': State, addr: Addr)
    requires Member(s', addr)
  {
    if IsContact(e, addr, s'.groups[0].id) then ConnOf(s', addr).lastRcvd == ts
    else Member(s, addr) && s.groups[0].id == s'.groups[0].id
         && ConnOf(s', addr).lastRcvd == ConnOf(s, addr).lastRcvd
  }

  lemma DataMoves(s: State, e: Event, ts: int, addr: Addr)
    requires Inv(s) && Sane(e) && e.DataFrom? && Member(Step(s, e, ts).0, addr)
    ensures TimeMoves(s, e, ts, Step(s, e, ts).0, addr)
  {
    var s' := Step(s, e, ts).0;
    var f := FindByAddr(s.groups, e.addr);
    if f.InConn? {
      var cs := s.groups[0].conns;
      var c := cs[f.c].(lastRcvd := ts);
      var c' := if !e.keepalive && e.n >= SRT_MIN_LEN && e.sn >= 0 then Registered(c, e.sn).0 else c;
      assert s'.groups[0].conns == cs[f.c := c'];
      ReplacedAt(cs, f.c, c', addr);
      if addr != e.addr {
        SameConn(s, s', addr);
      }
    }
  }

  lemma JoinedTime(s: State, who: Addr, ts: int, x: Conn)
    requires Inv(s) && |s.groups| == 1 && x in Joined(s, 0, who, ts).0.groups[0].conns
    ensures if x.addr == who then x.lastRcvd == ts else x in s.groups[0].conns
  {
    var cs := s.groups[0].conns;
    var f := FindByAddr(s.groups, who);
    var joined := Joined(s, 0, who, ts).0.groups[0].conns;
    var i :| 0 <= i < |joined| && joined[i] == x;
    if f.InConn? {
      assert joined == cs[f.c := cs[f.c].(lastRcvd := ts)];
      assert i != f.c ==> cs[i] == x && cs[f.c].addr == who;
    } else {
      assert joined == [Conn(who, ts, [])] + cs;
      assert i > 0 ==> cs[i - 1] == x;
    }
  }

  lemma JoinMoves(s: State, e: Event, ts: int, addr: Addr)
    requires Inv(s) && e.Reg2From? && Member(Step(s, e, ts).0, addr)
    ensures TimeMoves(s, e, ts, Step(s, e, ts).0, addr)
  {
    hide Joined;
    var s' := Step(s, e, ts).0;
    var g := GroupWithId(s.groups, e.id);
    if g < |s.groups| && (FindByAddr(s.groups, e.addr).InConn? || e.memory) {
      var (s1, c) := Joined(s, 0, e.addr, ts);
      var joined := s1.groups[0].conns;
      assert s'.groups[0].conns == if e.sent then joined else joined[c + 1..];
      var x := ConnOf(s', addr);
      assert x in s'.groups[0].conns && x in joined;
      JoinedTime(s, e.addr, ts, x);
      JoinedAdmitsOne(s, e.addr, ts, addr);
      if addr != e.addr {
        SameConn(s, s', addr);
      }
    } else if g < |s.groups| {
      assert addr != e.addr;
    }
  }

  lemma TickMoves(s: State, ts: int, addr: Addr)
    requires Inv(s) && Member(Cleanup(s, ts), addr)
    ensures TimeMoves(s, Tick, ts, Cleanup(s, ts), addr)
  {
    var s' := Cleanup(s, ts);
    if s' != s {
      assert LiveGroups(s.groups[1..], ts) == [];
      assert ConnOf(s', addr) in s'.groups[0].conns;
      SameConn(s, s', addr);
    }
  }

  lemma DropMoves(s: State, g: nat, ts: int, addr: Addr)
    requires Inv(s) && Member(PeerDropped(s, g), addr)
    ensures TimeMoves(s, FatalReply(g), ts, PeerDropped(s, g), addr)
  {
    assert ConnOf(PeerDropped(s, g), addr) in PeerDropped(s, g).groups[0].conns;
    SameConn(s, PeerDropped(s, g), addr);
  }

  lemma StepMovesTime(s: State, e: Event, ts: int, addr: Addr)
    requires Inv(s) && Sane(e) && Member(Step(s, e, ts).0, addr)
    ensures TimeMoves(s, e, ts, Step(s, e, ts).0, addr)
  {
    match e
    case Reg1From(from, id, draws, sent) =>
      if s.count < MAX_GROUPS {
        GroupRegClosedForm(s, from, id, ts, draws, sent);
      }
    case Reg2From(_, _, _, _) => JoinMoves(s, e, ts, addr);
    case DataFrom(_, _, _, _, _) => DataMoves(s, e, ts, addr);
    case FatalReply(g) => DropMoves(s, g, ts, addr);
    case ServerGone(_) =>
    case Tick => TickMoves(s, ts, addr);
  }

  /** In every run, a member counts as heard at the time of the latest packet that
      came from it. */
  lemma {:induction false} HeardAtLastContact(es: seq<Timed>, addr: Addr)
    requires SaneRun(es) && Member(Run(es), addr)
    ensures LastContact(es, addr, Run(es).groups[0].id) == Some(ConnOf(Run(es), addr).lastRcvd)
  {
    hide Step, Inv;
    var k := |es| - 1;
    var s, e := Run(es[..k]), es[k].e;
    OneGroupDistinctMembers(es[..k]);
    StepMovesTime(s, e, es[k].ts, addr);
    if !IsContact(e, addr, Run(es).groups[0].id) {
      HeardAtLastContact(es[..k], addr);
    }
  }

  /** When cleanup last ran: calls within three seconds of the last pass do
      nothing. */
  function LastPass(es: seq<Timed>): int {
    if es == [] then 0
    else
      var before, t := LastPass(es[..|es| - 1]), es[|es| - 1];
      if t.e.Tick? && t.ts >= before + 3 then t.ts else before
  }

  /** When the last group that was opened and announced was opened. */
  function OpenedAt(es: seq<Timed>): int {
    if es == [] then 0
    else
      var t := es[|es| - 1];
      if t.e.Reg1From? && t.e.draws != [] && t.e.sent then t.ts else OpenedAt(es[..|es| - 1])
  }

  lemma StepPasses(s: State, e: Event, ts: int)
    requires Inv(s) && Sane(e)
    ensures Step(s, e, ts).0.lastRan == if e.Tick? && ts >= s.lastRan + 3 then ts else s.lastRan
  {
    if e.Reg1From? && s.count < MAX_GROUPS {
      GroupRegClosedForm(s, e.addr, e.id, ts, e.draws, e.sent);
    }
  }

  lemma StepOpens(s: State, e: Event, ts: int)
    requires Inv(s) && Sane(e) && s.count < MAX_GROUPS && |Step(s, e, ts).0.groups| == 1
    ensures var s' := Step(s, e, ts).0;
            if e.Reg1From? && e.draws != [] && e.sent then s'.groups[0].createdAt == ts
            else |s.groups| == 1 && s'.groups[0].createdAt == s.groups[0].createdAt
  {
    match e
    case Reg1From(addr, id, draws, sent) => GroupRegClosedForm(s, addr, id, ts, draws, sent);
    case Reg2From(_, _, _, _) =>
    case DataFrom(_, _, _, _, _) =>
    case FatalReply(_) =>
    case ServerGone(_) =>
    case Tick =>
      if |s.groups| == 1 {
        assert LiveGroups(s.groups[1..], ts) == [];
      }
  }

  /** The receiver knows when cleanup last ran and when its group was opened. */
  lemma {:induction false} TimesAreKept(es: seq<Timed>)
    requires SaneRun(es)
    ensures Run(es).lastRan == LastPass(es)
    ensures |Run(es).groups| == 1 ==> Run(es).groups[0].createdAt == OpenedAt(es)
  {
    hide Step, Inv;
    if es != [] {
      var k := |es| - 1;
      TimesAreKept(es[..k]);
      OneGroupDistinctMembers(es[..k]);
      GroupCountLaw(es[..k]);
      StepPasses(Run(es[..k]), es[k].e, es[k].ts);
      if |Run(es).groups| == 1 {
        StepOpens(Run(es[..k]), es[k].e, es[k].ts);
      }
    }
  }

  lemma TickKeeps(s: State, ts: int, addr: Addr)
    requires Inv(s) && Member(s, addr)
    ensures Member(Cleanup(s, ts), addr) <==>
      s.lastRan + CLEANUP_PERIOD > ts || ts <= ConnOf(s, addr).lastRcvd + CONN_TIMEOUT
  {
    var s' := Cleanup(s, ts);
    var x := ConnOf(s, addr);
    if s.lastRan + CLEANUP_PERIOD <= ts {
      var cs := s.groups[0].conns;
      var live := LiveConns(cs, ts);
      assert LiveGroups(s.groups[1..], ts) == [];
      if x in live {
        LiveConnsKeepsDistinct(cs, ts);
        TheMember(live, x);
        assert s'.groups[0].conns == live;
      } else if Member(s', addr) {
        assert ConnOf(s', addr) in s'.groups[0].conns;
        TheMember(cs, ConnOf(s', addr));
      }
    }
  }

  /** A cleanup call takes a member away exactly if it comes three seconds or more
      after the last pass and the latest packet from the member is more than 90 s
      old: a link that was heard within 90 s stays. */
  lemma CleanupKeepsHeardMembers(es: seq<Timed>, addr: Addr, ts: int)
    requires SaneRun(es) && Member(Run(es), addr)
    ensures var last := LastContact(es, addr, Run(es).groups[0].id);
            && last.Some?
            && (Member(Step(Run(es), Tick, ts).0, addr) <==>
                  ts < LastPass(es) + 3 || ts <= last.value + 90)
  {
    hide Run, Inv;
    HeardAtLastContact(es, addr);
    OneGroupDistinctMembers(es);
    TimesAreKept(es);
    TickKeeps(Run(es), ts, addr);
  }

  /** Such a call closes a group exactly if none of its members was heard within
      90 s and it was opened more than 90 s ago. */
  lemma CleanupClosesDeadGroups(es: seq<Timed>, ts: int)
    requires SaneRun(es) && |Run(es).groups| == 1 && ts >= LastPass(es) + 3
    ensures Step(Run(es), Tick, ts).0.groups == [] <==>
      && ts > OpenedAt(es) + 90
      && forall addr :: Member(Run(es), addr) ==>
           var last := LastContact(es, addr, Run(es).groups[0].id); last.Some? && ts > last.value + 90
  {
    hide Run, Inv;
    var s := Run(es);
    OneGroupDistinctMembers(es);
    TimesAreKept(es);
    forall addr | Member(s, addr)
      ensures LastContact(es, addr, s.groups[0].id) == Some(ConnOf(s, addr).lastRcvd)
    {
      HeardAtLastContact(es, addr);
    }
    GroupCloses(s, ts);
  }

  lemma GroupCloses(s: State, ts: int)
    requires Inv(s) && |s.groups| == 1 && ts >= s.lastRan + 3
    ensures Cleanup(s, ts).groups == [] <==>
      ts > s.groups[0].createdAt + 90 && forall addr :: Member(s, addr) ==> ts > ConnOf(s, addr).lastRcvd + 90
  {
    var cs := s.groups[0].conns;
    var live := LiveConns(cs, ts);
    assert LiveGroups(s.groups[1..], ts) == [];
    if live != [] {
      assert live[0] in live && live[0] in cs;
      TheMember(cs, live[0]);
      assert ts <= ConnOf(s, live[0].addr).lastRcvd + 90;
    } else {
      forall addr | Member(s, addr) ensures ts > ConnOf(s, addr).lastRcvd + 90 {
        assert ConnOf(s, addr) in cs && ConnOf(s, addr) !in live;
      }
    }
  }
}
