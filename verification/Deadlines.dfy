/** Dead links are gone in time, although cleanup runs at most every 3 s. */
module Deadlines {
  import opened Wire
  import opened Receiver

  // ---- one unthrottled pass ----

  predicate Ascending(at: seq<nat>, n: nat) {
    (forall i :: 0 <= i < |at| ==> at[i] < n) &&
    forall i, j :: 0 <= i < j < |at| ==> at[i] < at[j]
  }

  /** The positions of the marks, in order. */
  function Marked(marks: seq<bool>): (at: seq<nat>)
  {
    if marks == [] then []
    else
      var k := |marks| - 1;
      Marked(marks[..k]) + if marks[k] then [k] else []
  }

  lemma {:induction false} MarkedExact(marks: seq<bool>)
    ensures Ascending(Marked(marks), |marks|)
    ensures forall k :: 0 <= k < |marks| ==> (k in Marked(marks) <==> marks[k])
  {
    if marks != [] {
      MarkedExact(marks[..|marks| - 1]);
    }
  }

  function Picked<T>(s: seq<T>, at: seq<nat>): (r: seq<T>)
    requires forall i :: 0 <= i < |at| ==> at[i] < |s|
    ensures |r| == |at|
  {
    seq(|at|, i requires 0 <= i < |at| => s[at[i]])
  }

  lemma PickedSnoc<T>(s: seq<T>, x: T, at: seq<nat>)
    requires forall i :: 0 <= i < |at| ==> at[i] < |s|
    ensures Picked(s + [x], at) == Picked(s, at)
    ensures Picked(s + [x], at + [|s|]) == Picked(s, at) + [x]
  {
  }

  predicate Heard(c: Conn, ts: int) {
    c.lastRcvd + CONN_TIMEOUT >= ts
  }

  function HeardMarks(cs: seq<Conn>, ts: int): seq<bool> {
    seq(|cs|, i requires 0 <= i < |cs| => Heard(cs[i], ts))
  }

  lemma {:induction false} LiveConnsSnoc(cs: seq<Conn>, c: Conn, ts: int)
    ensures LiveConns(cs + [c], ts) == LiveConns(cs, ts) + if Heard(c, ts) then [c] else []
  {
    if cs != [] {
      assert (cs + [c])[1..] == cs[1..] + [c];
      LiveConnsSnoc(cs[1..], c, ts);
    }
  }

  lemma {:induction false} LiveConnsPicked(cs: seq<Conn>, ts: int, marks: seq<bool>)
    requires marks == HeardMarks(cs, ts) && Ascending(Marked(marks), |cs|)
    ensures LiveConns(cs, ts) == Picked(cs, Marked(marks))
  {
    if cs != [] {
      var k := |cs| - 1;
      var front, last := cs[..k], cs[k];
      assert front + [last] == cs;
      assert HeardMarks(front, ts) == marks[..k];
      MarkedExact(marks[..k]);
      LiveConnsPicked(front, ts, marks[..k]);
      LiveConnsSnoc(front, last, ts);
      PickedSnoc(front, last, Marked(marks[..k]));
    }
  }

  /** Exactly the connections heard from within 90 s stay, in list order. */
  lemma {:induction false} LiveConnsExact(cs: seq<Conn>, ts: int)
    ensures var at := Marked(HeardMarks(cs, ts));
            && Ascending(at, |cs|)
            && (forall k :: 0 <= k < |cs| ==> (k in at <==> Heard(cs[k], ts)))
            && LiveConns(cs, ts) == Picked(cs, at)
  {
    MarkedExact(HeardMarks(cs, ts));
    LiveConnsPicked(cs, ts, HeardMarks(cs, ts));
  }

  function AllSwept(gs: seq<Group>, ts: int): (r: seq<Group>)
    ensures |r| == |gs|
  {
    seq(|gs|, i requires 0 <= i < |gs| => Swept(gs[i], ts))
  }

  function UnexpiredMarks(gs: seq<Group>, ts: int): seq<bool> {
    seq(|gs|, i requires 0 <= i < |gs| => !Expired(Swept(gs[i], ts), ts))
  }

  lemma {:induction false} LiveGroupsSnoc(gs: seq<Group>, g: Group, ts: int)
    ensures LiveGroups(gs + [g], ts) == LiveGroups(gs, ts) + if Expired(Swept(g, ts), ts) then [] else [Swept(g, ts)]
  {
    if gs != [] {
      assert (gs + [g])[1..] == gs[1..] + [g];
      LiveGroupsSnoc(gs[1..], g, ts);
    }
  }

  lemma {:induction false} LiveGroupsPicked(gs: seq<Group>, ts: int, marks: seq<bool>)
    requires marks == UnexpiredMarks(gs, ts) && Ascending(Marked(marks), |gs|)
    ensures LiveGroups(gs, ts) == Picked(AllSwept(gs, ts), Marked(marks))
  {
    if gs != [] {
      var k := |gs| - 1;
      var front, last := gs[..k], gs[k];
      assert front + [last] == gs;
      assert UnexpiredMarks(front, ts) == marks[..k];
      MarkedExact(marks[..k]);
      LiveGroupsPicked(front, ts, marks[..k]);
      LiveGroupsSnoc(front, last, ts);
      assert AllSwept(front, ts) + [Swept(last, ts)] == AllSwept(gs, ts);
      PickedSnoc(AllSwept(front, ts), Swept(last, ts), Marked(marks[..k]));
    }
  }

  /** Exactly the groups without live connections 90 s after their creation go,
      the others stay in list order, each with its live connections. */
  lemma {:induction false} LiveGroupsExact(gs: seq<Group>, ts: int)
    ensures var at := Marked(UnexpiredMarks(gs, ts));
            && Ascending(at, |gs|)
            && (forall k :: 0 <= k < |gs| ==> (k in at <==> !Expired(Swept(gs[k], ts), ts)))
            && LiveGroups(gs, ts) == Picked(AllSwept(gs, ts), at)
  {
    MarkedExact(UnexpiredMarks(gs, ts));
    LiveGroupsPicked(gs, ts, UnexpiredMarks(gs, ts));
  }

  // ---- every run ----

  predicate Ordered(es: seq<Timed>) {
    (forall k :: 0 <= k < |es| ==> es[k].ts >= 0) &&
    forall i, j :: 0 <= i <= j < |es| ==> es[i].ts <= es[j].ts
  }

  /** No connection was dead when cleanup last ran. */
  predicate InTime(s: State, now: int) {
    && 0 <= s.lastRan <= now
    && forall g, c :: 0 <= g < |s.groups| && 0 <= c < |s.groups[g].conns| ==>
         s.lastRan <= s.groups[g].conns[c].lastRcvd + CONN_TIMEOUT
  }

  lemma {:induction false} DestroyKeeps(s: State, g: nat, now: int)
    requires InTime(s, now) && g < |s.groups|
    ensures InTime(Destroyed(s, g), now)
  {
  }

  lemma {:induction false} DestroyAllKeeps(s: State, now: int)
    requires InTime(s, now)
    ensures InTime(AllDestroyed(s), now)
    decreases |s.groups|
  {
    if s.groups != [] {
      DestroyKeeps(s, 0, now);
      DestroyAllKeeps(Destroyed(s, 0), now);
    }
  }

  lemma {:induction false} GroupRegKeeps(s: State, addr: Addr, id: Id, ts: int, draws: seq<Half>, sent: bool)
    requires InTime(s, ts)
    ensures InTime(GroupReg(s, addr, id, ts, draws, sent).0, ts)
  {
    hide Evicted, FreshId;
    if s.count < MAX_GROUPS {
      EvictionKeeps(s, addr, id, ts);
    }
  }

  lemma {:induction false} EvictionKeeps(s: State, addr: Addr, id: Id, ts: int)
    requires InTime(s, ts)
    ensures InTime(Evicted(s, addr, id), ts)
  {
    var f := FindByAddr(s.groups, addr);
    if !f.Nowhere? {
      DestroyKeeps(s, f.g, ts);
    }
    var s1 := WithoutAddr(s, addr);
    var g := GroupWithId(s1.groups, id);
    if g < |s1.groups| {
      DestroyKeeps(s1, g, ts);
    }
    DestroyAllKeeps(WithoutId(s1, id), ts);
  }

  lemma {:induction false} NewConnsKeep(s: State, g: nat, cs: seq<Conn>, now: int)
    requires InTime(s, now) && g < |s.groups|
    requires forall c :: 0 <= c < |cs| ==> s.lastRan <= cs[c].lastRcvd + CONN_TIMEOUT
    ensures InTime(WithConns(s, g, cs), now)
  {
  }

  lemma {:induction false} JoinedKeeps(s: State, g: nat, addr: Addr, ts: int)
    requires InTime(s, ts) && g < |s.groups|
    ensures InTime(Joined(s, g, addr, ts).0, ts)
  {
    var f := FindByAddr(s.groups, addr);
    if f.InConn? && f.g == g {
      var cs := s.groups[g].conns;
      NewConnsKeep(s, g, cs[f.c := cs[f.c].(lastRcvd := ts)], ts);
    } else {
      var s1 := s;
      if f.InConn? {
        NewConnsKeep(s, f.g, Without(s.groups[f.g].conns, f.c), ts);
        s1 := WithConns(s, f.g, Without(s.groups[f.g].conns, f.c));
      }
      NewConnsKeep(s1, g, [Conn(addr, ts, [])] + s1.groups[g].conns, ts);
    }
  }

  lemma {:induction false} ConnRegKeeps(s: State, addr: Addr, id: Id, ts: int, memory: bool, sent: bool)
    requires InTime(s, ts)
    ensures InTime(ConnReg(s, addr, id, ts, memory, sent).0, ts)
  {
    var g := GroupWithId(s.groups, id);
    if g < |s.groups| && (FindByAddr(s.groups, addr).InConn? || memory) {
      JoinedKeeps(s, g, addr, ts);
      var (s1, c) := Joined(s, g, addr, ts);
      NewConnsKeep(s1, g, s1.groups[g].conns[c + 1..], ts);
    }
  }

  lemma {:induction false} DataKeeps(s: State, addr: Addr, ts: int, n: nat, keepalive: bool, sn: int,
                                     lost: bool)
    requires InTime(s, ts) && sn < TWO31
    ensures InTime(Data(s, addr, ts, n, keepalive, sn, lost).0, ts)
  {
    var f := FindByAddr(s.groups, addr);
    if f.InConn? {
      var g := s.groups[f.g];
      var c := g.conns[f.c].(lastRcvd := ts);
      var c' := if sn >= 0 then Registered(c, sn).0 else c;
      var s1 := s.(groups := s.groups[f.g := g.(conns := g.conns[f.c := c'], lastAddr := addr)]);
      assert InTime(s1, ts);
      DestroyKeeps(s1, f.g, ts);
    }
  }

  lemma {:induction false} CleanupMeets(s: State, ts: int)
    requires InTime(s, ts)
    ensures InTime(Cleanup(s, ts), ts)
    ensures forall g, c :: 0 <= g < |Cleanup(s, ts).groups| && 0 <= c < |Cleanup(s, ts).groups[g].conns| ==>
      ts < Cleanup(s, ts).groups[g].conns[c].lastRcvd + CONN_TIMEOUT + CLEANUP_PERIOD
  {
    if s.lastRan + CLEANUP_PERIOD <= ts {
      LiveGroupsExact(s.groups, ts);
      var at := Marked(UnexpiredMarks(s.groups, ts));
      var s' := Cleanup(s, ts);
      forall g, c | 0 <= g < |s'.groups| && 0 <= c < |s'.groups[g].conns|
        ensures ts <= s'.groups[g].conns[c].lastRcvd + CONN_TIMEOUT
      {
        assert s'.groups[g].conns[c] in LiveConns(s.groups[at[g]].conns, ts);
      }
    }
  }

  lemma {:induction false} StepKeepsInTime(s: State, e: Event, ts: int)
    requires InTime(s, ts) && Sane(e)
    ensures InTime(Step(s, e, ts).0, ts)
  {
    match e
    case Reg1From(addr, id, draws, sent) => GroupRegKeeps(s, addr, id, ts, draws, sent);
    case Reg2From(addr, id, memory, sent) => ConnRegKeeps(s, addr, id, ts, memory, sent);
    case DataFrom(addr, n, keepalive, sn, lost) => DataKeeps(s, addr, ts, n, keepalive, sn, lost);
    case FatalReply(g) =>
    case ServerGone(g) =>
      if g < |s.groups| {
        DestroyKeeps(s, g, ts);
      }
    case Tick => CleanupMeets(s, ts);
  }

  lemma {:induction false} RunInTime(es: seq<Timed>)
    requires SaneRun(es) && Ordered(es)
    ensures InTime(Run(es), if es == [] then 0 else es[|es| - 1].ts)
  {
    if es != [] {
      var k := |es| - 1;
      RunInTime(es[..k]);
      assert InTime(Run(es[..k]), es[k].ts);
      StepKeepsInTime(Run(es[..k]), es[k].e, es[k].ts);
    }
  }

  /** After every cleanup call, throttled or not, each connection left was heard
      from less than 93 s ago. */
  lemma {:induction false} DeadLinksGoneInTime(es: seq<Timed>)
    requires SaneRun(es) && Ordered(es) && es != [] && es[|es| - 1].e.Tick?
    ensures var s, ts := Run(es), es[|es| - 1].ts;
            forall g, c :: 0 <= g < |s.groups| && 0 <= c < |s.groups[g].conns| ==>
              ts < s.groups[g].conns[c].lastRcvd + CONN_TIMEOUT + CLEANUP_PERIOD
  {
    var k := |es| - 1;
    RunInTime(es[..k]);
    CleanupMeets(Run(es[..k]), es[k].ts);
  }
}
