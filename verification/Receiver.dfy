/** The receiver's connection groups as a value, and the effect of every packet
    and timer on them.  ReceiverObjects.dfy does the same in place. */
module Receiver {
  import opened Wire

  const MAX_GROUPS := 200
  const CLEANUP_PERIOD := 3
  const GROUP_TIMEOUT := 90
  const CONN_TIMEOUT := 90
  const ACK_INTERVAL := 10
  const ID_LEN := 256
  const HALF := 128
  const SRT_MIN_LEN := 16

  datatype Addr = Addr(ip: nat, port: nat)

  type Id = s: seq<Byte> | |s| == ID_LEN witness seq(ID_LEN, _ => 0)
  type Half = s: seq<Byte> | |s| == HALF witness seq(HALF, _ => 0)

  datatype Conn = Conn(addr: Addr, lastRcvd: int, log: seq<Word>)
  datatype Group = Group(id: Id, conns: seq<Conn>, lastAddr: Addr, createdAt: int)
  datatype State = State(groups: seq<Group>, count: int, lastRan: int)

  const INITIAL := State([], 0, 0)

  /** Packets the receiver sends to an address. */
  datatype Reply = Reg2(id: Id) | Reg3 | RegErr | RegNgp | Acked(numbers: seq<Word>) | Echo

  // ---- lookups ----

  /** Index of the first group with this id, or the number of groups. */
  function GroupWithId(gs: seq<Group>, id: Id): (g: nat)
    ensures g <= |gs|
    ensures g < |gs| ==> gs[g].id == id
    ensures forall i :: 0 <= i < g ==> gs[i].id != id
  {
    if gs == [] then 0 else if gs[0].id == id then 0 else 1 + GroupWithId(gs[1..], id)
  }

  function ConnAt(cs: seq<Conn>, addr: Addr): (c: nat)
    ensures c <= |cs|
    ensures c < |cs| ==> cs[c].addr == addr
    ensures forall i :: 0 <= i < c ==> cs[i].addr != addr
  {
    if cs == [] then 0 else if cs[0].addr == addr then 0 else 1 + ConnAt(cs[1..], addr)
  }

  datatype Found = InConn(g: nat, c: nat) | AsLast(g: nat) | Nowhere

  /** The lookup by address; it stops at the first group that has the address
      among its connections or as its most recent peer. */
  function FindFrom(gs: seq<Group>, addr: Addr, g: nat): (f: Found)
    requires g <= |gs|
    ensures f.InConn? ==> g <= f.g < |gs| && f.c < |gs[f.g].conns| && gs[f.g].conns[f.c].addr == addr
    ensures f.InConn? ==> f.c == ConnAt(gs[f.g].conns, addr)
    ensures f.AsLast? ==> g <= f.g < |gs| && gs[f.g].lastAddr == addr
    ensures f.Nowhere? ==> forall i :: g <= i < |gs| ==> ConnAt(gs[i].conns, addr) == |gs[i].conns|
    decreases |gs| - g
  {
    if g == |gs| then Nowhere
    else
      var c := ConnAt(gs[g].conns, addr);
      if c < |gs[g].conns| then InConn(g, c)
      else if gs[g].lastAddr == addr then AsLast(g)
      else FindFrom(gs, addr, g + 1)
  }

  function FindByAddr(gs: seq<Group>, addr: Addr): Found {
    FindFrom(gs, addr, 0)
  }

  // ---- group registration (REG1) ----

  function Without<T>(s: seq<T>, i: nat): (r: seq<T>)
    requires i < |s|
    ensures |r| == |s| - 1
  {
    s[..i] + s[i + 1..]
  }

  function Destroyed(s: State, g: nat): State
    requires g < |s.groups|
  {
    s.(groups := Without(s.groups, g), count := s.count - 1)
  }

  function AllDestroyed(s: State): (r: State)
    decreases |s.groups|
  {
    if s.groups == [] then s else AllDestroyed(Destroyed(s, 0))
  }

  /** The id for a new group: the half the sender chose and the first random
      half that makes it unused; none when the random source fails. */
  function FreshId(gs: seq<Group>, half: Half, draws: seq<Half>): (r: seq<Id>)
    ensures |r| <= 1
    ensures r != [] ==> r[0][..HALF] == half && GroupWithId(gs, r[0]) == |gs|
  {
    if draws == [] then []
    else if GroupWithId(gs, half + draws[0]) == |gs| then [half + draws[0]]
    else FreshId(gs, half, draws[1..])
  }

  function WithoutAddr(s: State, addr: Addr): State {
    var f := FindByAddr(s.groups, addr);
    if f.Nowhere? then s else Destroyed(s, f.g)
  }

  function WithoutId(s: State, id: Id): State {
    var g := GroupWithId(s.groups, id);
    if g == |s.groups| then s else Destroyed(s, g)
  }

  /** Before a group is made: the one found by address goes, then the one with
      the same id, then all others. */
  function Evicted(s: State, addr: Addr, id: Id): State {
    AllDestroyed(WithoutId(WithoutAddr(s, addr), id))
  }

  /** Makes and announces a group.  `sent` is the outcome of sending REG2; the
      group is counted only after that. */
  function Made(s: State, addr: Addr, id: Id, ts: int, draws: seq<Half>, sent: bool): (r: (State, seq<Reply>))
  {
    var made := FreshId(s.groups, id[..HALF], draws);
    if made == [] then (s, [RegErr])
    else
      var pushed := s.(groups := [Group(made[0], [], addr, ts)] + s.groups);
      if sent then (pushed.(count := pushed.count + 1), [Reg2(made[0])])
      else (Destroyed(pushed, 0), [RegErr])
  }

  /** What REG1 from addr leads to. */
  function GroupReg(s: State, addr: Addr, id: Id, ts: int, draws: seq<Half>, sent: bool)
    : (r: (State, seq<Reply>))
  {
    if s.count >= MAX_GROUPS then (s, [RegErr])
    else Made(Evicted(s, addr, id), addr, id, ts, draws, sent)
  }

  // ---- connection registration (REG2) ----

  function WithConns(s: State, g: nat, cs: seq<Conn>): State
    requires g < |s.groups|
  {
    s.(groups := s.groups[g := s.groups[g].(conns := cs)])
  }

  /** Registers addr with group g: found there, moved from another group, or
      new.  Yields the new state and the position of the connection. */
  function Joined(s: State, g: nat, addr: Addr, ts: int): (r: (State, nat))
    requires g < |s.groups|
    ensures |r.0.groups| == |s.groups| && r.1 < |r.0.groups[g].conns|
    ensures r.0.groups[g].conns[r.1].addr == addr
  {
    var f := FindByAddr(s.groups, addr);
    if f.InConn? && f.g == g then
      var cs := s.groups[g].conns;
      (WithConns(s, g, cs[f.c := cs[f.c].(lastRcvd := ts)]), f.c)
    else
      var s1 := if f.InConn? then WithConns(s, f.g, Without(s.groups[f.g].conns, f.c)) else s;
      (WithConns(s1, g, [Conn(addr, ts, [])] + s1.groups[g].conns), 0)
  }

  /** The reply to a registered connection: when REG3 cannot be sent the list is
      cut after the connection, wherever it stood. */
  function Confirmed(s: State, g: nat, c: nat, addr: Addr, sent: bool): (r: (State, seq<Reply>))
    requires g < |s.groups| && c < |s.groups[g].conns|
  {
    if sent then (s.(groups := s.groups[g := s.groups[g].(lastAddr := addr)]), [Reg3])
    else (WithConns(s, g, s.groups[g].conns[c + 1..]), [RegErr])
  }

  /** REG2 from addr.  `memory` and `sent` are the outcomes of allocating a new
      connection and of sending REG3. */
  function ConnReg(s: State, addr: Addr, id: Id, ts: int, memory: bool, sent: bool)
    : (r: (State, seq<Reply>))
  {
    var g := GroupWithId(s.groups, id);
    if g == |s.groups| then (s, [RegNgp])
    else if !FindByAddr(s.groups, addr).InConn? && !memory then (s, [RegErr])
    else
      var (s1, c) := Joined(s, g, addr, ts);
      Confirmed(s1, g, c, addr, sent)
  }

  // ---- other packets ----

  /** Logs a data packet; every tenth one empties the log into an ACK. */
  function Registered(c: Conn, sn: Word): (r: (Conn, seq<Reply>))
  {
    var log := c.log + [sn];
    if |log| == ACK_INTERVAL then (c.(log := []), [Acked(log)]) else (c.(log := log), [])
  }

  /** A packet of n bytes that is no registration.  sn is the sequence number,
      negative for a control packet; `lost` tells whether passing it on to the
      SRT server failed in a way that destroys the group. */
  function Data(s: State, addr: Addr, ts: int, n: nat, keepalive: bool, sn: int, lost: bool)
    : (r: (State, seq<Reply>))
    requires sn < TWO31
  {
    var f := FindByAddr(s.groups, addr);
    if !f.InConn? then (s, [])
    else
      var g := s.groups[f.g];
      var c := g.conns[f.c].(lastRcvd := ts);
      if keepalive then (WithConns(s, f.g, g.conns[f.c := c]), [Echo])
      else if n < SRT_MIN_LEN then (WithConns(s, f.g, g.conns[f.c := c]), [])
      else
        var (c', out) := if sn >= 0 then Registered(c, sn) else (c, []);
        var s1 := s.(groups := s.groups[f.g := g.(conns := g.conns[f.c := c'], lastAddr := addr)]);
        (if lost then Destroyed(s1, f.g) else s1, out)
  }

  /** Where a packet from the SRT server goes: an SRT ACK to every connection, any
      other packet to the most recent peer. */
  function Destinations(g: Group, isAck: bool): seq<Addr> {
    if isAck then seq(|g.conns|, i requires 0 <= i < |g.conns| => g.conns[i].addr) else [g.lastAddr]
  }

  /** A fatal error while answering group g drops its most recent peer. */
  function PeerDropped(s: State, g: nat): State
  {
    if g >= |s.groups| then s
    else
      var cs := s.groups[g].conns;
      var c := ConnAt(cs, s.groups[g].lastAddr);
      if c == |cs| then s else WithConns(s, g, Without(cs, c))
  }

  // ---- cleanup ----

  function LiveConns(cs: seq<Conn>, ts: int): (r: seq<Conn>)
    ensures forall c :: c in r <==> c in cs && c.lastRcvd + CONN_TIMEOUT >= ts
  {
    if cs == [] then []
    else
      var rest := LiveConns(cs[1..], ts);
      assert forall c :: c in cs <==> c == cs[0] || c in cs[1..];
      if cs[0].lastRcvd + CONN_TIMEOUT < ts then rest else [cs[0]] + rest
  }

  function Swept(g: Group, ts: int): Group {
    g.(conns := LiveConns(g.conns, ts))
  }

  predicate Expired(g: Group, ts: int) {
    g.conns == [] && g.createdAt + GROUP_TIMEOUT < ts
  }

  /** The groups an unthrottled pass leaves. */
  function LiveGroups(gs: seq<Group>, ts: int): (r: seq<Group>)
    ensures |r| <= |gs|
  {
    if gs == [] then []
    else
      var g := Swept(gs[0], ts);
      var rest := LiveGroups(gs[1..], ts);
      if Expired(g, ts) then rest else [g] + rest
  }

  function Cleanup(s: State, ts: int): State {
    if s.lastRan + CLEANUP_PERIOD > ts then s
    else
      var gs := LiveGroups(s.groups, ts);
      State(gs, s.count - (|s.groups| - |gs|), ts)
  }

  // ---- runs ----

  datatype Event =
    | Reg1From(addr: Addr, id: Id, draws: seq<Half>, sent: bool)
    | Reg2From(addr: Addr, id: Id, memory: bool, sent: bool)
    | DataFrom(addr: Addr, n: nat, keepalive: bool, sn: int, lost: bool)
    | FatalReply(g: nat)
    | ServerGone(g: nat)
    | Tick

  predicate Sane(e: Event) {
    e.DataFrom? ==> e.sn < TWO31
  }

  /** One event at time ts. */
  function Step(s: State, e: Event, ts: int): (r: (State, seq<Reply>))
    requires Sane(e)
  {
    match e
    case Reg1From(addr, id, draws, sent) => GroupReg(s, addr, id, ts, draws, sent)
    case Reg2From(addr, id, memory, sent) => ConnReg(s, addr, id, ts, memory, sent)
    case DataFrom(addr, n, keepalive, sn, lost) => Data(s, addr, ts, n, keepalive, sn, lost)
    case FatalReply(g) => (PeerDropped(s, g), [])
    case ServerGone(g) => (if g < |s.groups| then Destroyed(s, g) else s, [])
    case Tick => (Cleanup(s, ts), [])
  }

  datatype Timed = At(ts: int, e: Event)

  predicate SaneRun(es: seq<Timed>) {
    forall k :: 0 <= k < |es| ==> Sane(es[k].e)
  }

  function Run(es: seq<Timed>): State
    requires SaneRun(es)
  {
    if es == [] then INITIAL
    else
      var k := |es| - 1;
      Step(Run(es[..k]), es[k].e, es[k].ts).0
  }
}
