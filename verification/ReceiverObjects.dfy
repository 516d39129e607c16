/** The receiver's code in its own form: groups and connections relinked and
    updated in place, proved to follow the functions of Receiver. */
module ReceiverObjects {
  import opened Wire
  import opened Receiver

  class Connection {
    const addr: Addr
    var lastRcvd: int
    var recvIdx: nat
    const recvLog: array<Word>

    ghost predicate Valid()
      reads this, recvLog
    {
      recvLog.Length == ACK_INTERVAL && recvIdx < ACK_INTERVAL
    }

    ghost function Value(): Conn
      reads this, recvLog
      requires Valid()
    {
      Conn(addr, lastRcvd, recvLog[..recvIdx])
    }

    constructor (addr: Addr, ts: int)
      ensures Valid() && fresh(recvLog) && Value() == Conn(addr, ts, [])
    {
      this.addr := addr;
      lastRcvd, recvIdx := ts, 0;
      recvLog := new Word[ACK_INTERVAL](_ => 0);
    }

    /** Logs a data packet; a full log goes out as an ACK. */
    method RegisterPacket(sn: Word) returns (replies: seq<Reply>)
      requires Valid()
      modifies this`recvIdx, recvLog
      ensures Valid() && (Value(), replies) == Registered(old(Value()), sn)
    {
      recvLog[recvIdx] := sn;
      assert recvLog[..recvIdx + 1] == old(recvLog[..recvIdx]) + [sn];
      if recvIdx + 1 == ACK_INTERVAL {
        replies := [Acked(recvLog[..])];
        assert recvLog[..] == recvLog[..recvIdx + 1];
        recvIdx := 0;
      } else {
        replies := [];
        recvIdx := recvIdx + 1;
      }
    }
  }

  lemma PushedAt<T>(x: T, s: seq<T>)
    ensures forall i :: 0 <= i < |[x] + s| ==> ([x] + s)[i] == if i == 0 then x else s[i - 1]
  {
  }

  lemma WithoutAt<T>(s: seq<T>, i: nat)
    requires i < |s|
    ensures forall k :: 0 <= k < |s| - 1 ==> Without(s, i)[k] == if k < i then s[k] else s[k + 1]
  {
    var r := Without(s, i);
    assert r[..i] == s[..i] && r[i..] == s[i + 1..];
    forall k | 0 <= k < |s| - 1 ensures r[k] == if k < i then s[k] else s[k + 1] {
      if k < i {
        assert r[..i][k] == s[..i][k];
      } else {
        assert r[i..][k - i] == s[i + 1..][k - i];
      }
    }
  }

  class ConnGroup {
    const id: Id
    const createdAt: int
    var conns: seq<Connection>
    var lastAddr: Addr
    ghost var Repr: set<object>
    ghost var value: Group

    ghost predicate Valid()
      reads this, Repr
      ensures Valid() ==> this in Repr && |conns| == |value.conns|
    {
      && this in Repr
      && (forall c :: 0 <= c < |conns| ==> conns[c] in Repr && conns[c].recvLog in Repr && conns[c].Valid())
      && (forall c, d :: 0 <= c < |conns| && 0 <= d < |conns| && c != d ==>
            conns[c] != conns[d] && conns[c].recvLog != conns[d].recvLog)
      && value.id == id && value.lastAddr == lastAddr && value.createdAt == createdAt
      && |value.conns| == |conns|
      && (forall c :: 0 <= c < |conns| ==> conns[c].Value() == value.conns[c])
    }

    constructor (id: Id, addr: Addr, ts: int)
      ensures Valid() && fresh(Repr) && value == Group(id, [], addr, ts)
    {
      this.id, createdAt, conns, lastAddr := id, ts, [], addr;
      Repr, value := {this}, Group(id, [], addr, ts);
    }

    method Find(addr: Addr) returns (c: nat)
      requires Valid()
      ensures c == ConnAt(value.conns, addr)
    {
      c := 0;
      while c < |conns| && conns[c].addr != addr
        invariant c <= |conns|
        invariant forall i :: 0 <= i < c ==> value.conns[i].addr != addr
      {
        c := c + 1;
      }
    }

    method Touch(c: nat, ts: int)
      requires Valid() && c < |conns|
      modifies Repr
      ensures Valid() && Repr == old(Repr)
      ensures value == old(value).(conns := old(value).conns[c := old(value).conns[c].(lastRcvd := ts)])
    {
      conns[c].lastRcvd := ts;
      value := value.(conns := value.conns[c := conns[c].Value()]);
    }

    method SetLastAddr(addr: Addr)
      requires Valid()
      modifies this
      ensures Valid() && Repr == old(Repr) && value == old(value).(lastAddr := addr)
    {
      lastAddr := addr;
      value := value.(lastAddr := addr);
    }

    method Log(c: nat, sn: Word) returns (replies: seq<Reply>)
      requires Valid() && c < |conns|
      modifies Repr
      ensures Valid() && Repr == old(Repr)
      ensures var r := Registered(old(value).conns[c], sn);
              value == old(value).(conns := old(value).conns[c := r.0]) && replies == r.1
    {
      replies := conns[c].RegisterPacket(sn);
      value := value.(conns := value.conns[c := conns[c].Value()]);
    }

    /** Puts a connection at the head of the list. */
    method Link(c: Connection)
      requires Valid() && c.Valid() && c !in Repr && c.recvLog !in Repr
      modifies this
      ensures Valid() && Repr == old(Repr) + {c, c.recvLog}
      ensures value == old(value).(conns := [c.Value()] + old(value).conns)
    {
      PushedAt(c, conns);
      conns := [c] + conns;
      Repr := Repr + {c, c.recvLog};
      value := value.(conns := [c.Value()] + value.conns);
    }

    /** Takes a connection out of the list. */
    method Unlink(c: nat) returns (conn: Connection)
      requires Valid() && c < |conns|
      modifies this
      ensures Valid() && conn.Valid() && conn == old(conns[c])
      ensures Repr == old(Repr) - {conn, conn.recvLog}
      ensures value == old(value).(conns := Without(old(value).conns, c))
    {
      hide Connection.Valid, Connection.Value;
      conn := conns[c];
      WithoutAt(conns, c);
      WithoutAt(value.conns, c);
      conns := Without(conns, c);
      Repr := Repr - {conn, conn.recvLog};
      value := value.(conns := Without(value.conns, c));
    }

    /** Makes the list start after a connection, dropping it and all before. */
    method CutAfter(c: nat)
      requires Valid() && c < |conns|
      modifies this
      ensures Valid() && Repr == old(Repr)
      ensures value == old(value).(conns := old(value).conns[c + 1..])
    {
      conns := conns[c + 1..];
      value := value.(conns := value.conns[c + 1..]);
    }

    /** Unlinks the connections that timed out. */
    method Sweep(ts: int)
      requires Valid()
      modifies this
      ensures Valid() && Repr <= old(Repr)
      ensures value == old(value).(conns := LiveConns(old(value).conns, ts))
    {
      var c := 0;
      ghost var kept, rest := [], value.conns;
      assert kept + LiveConns(rest, ts) == LiveConns(old(value).conns, ts);
      while c < |conns|
        invariant Valid() && Repr <= old(Repr) && c == |kept|
        invariant value == old(value).(conns := kept + rest)
        invariant kept + LiveConns(rest, ts) == LiveConns(old(value).conns, ts)
        decreases |conns| - c
      {
        LiveHead(kept, rest, ts);
        if conns[c].lastRcvd + CONN_TIMEOUT < ts {
          var dead := Unlink(c);
          assert value.conns == kept + rest[1..];
        } else {
          kept := kept + [rest[0]];
          c := c + 1;
        }
        rest := rest[1..];
      }
      assert rest == [] && kept + rest == kept;
    }
  }

  lemma {:induction false} LiveHead(kept: seq<Conn>, rest: seq<Conn>, ts: int)
    requires rest != []
    ensures kept + rest == (kept + [rest[0]]) + rest[1..]
    ensures kept + LiveConns(rest, ts) ==
            if rest[0].lastRcvd + CONN_TIMEOUT < ts then kept + LiveConns(rest[1..], ts)
            else (kept + [rest[0]]) + LiveConns(rest[1..], ts)
  {
  }

  class Context {
    var groups: seq<ConnGroup>
    var groupCount: int
    var lastRan: int
    ghost var Repr: set<object>
    ghost var state: State

    ghost predicate Valid()
      reads this, Repr
      ensures Valid() ==> this in Repr && |groups| == |state.groups|
    {
      && this in Repr
      && state.count == groupCount && state.lastRan == lastRan && |state.groups| == |groups|
      && (forall g :: 0 <= g < |groups| ==>
            groups[g] in Repr && groups[g].Repr <= Repr && this !in groups[g].Repr
            && groups[g].Valid() && groups[g].value == state.groups[g])
      && (forall g, h :: 0 <= g < |groups| && 0 <= h < |groups| && g != h ==>
            groups[g] != groups[h] && groups[g].Repr !! groups[h].Repr)
    }

    constructor ()
      ensures Valid() && fresh(Repr) && state == INITIAL
    {
      groups, groupCount, lastRan := [], 0, 0;
      Repr, state := {this}, INITIAL;
    }

    method FindById(id: Id) returns (g: nat)
      requires Valid()
      ensures g == GroupWithId(state.groups, id)
    {
      g := 0;
      while g < |groups| && groups[g].id != id
        invariant g <= |groups|
        invariant forall i :: 0 <= i < g ==> state.groups[i].id != id
      {
        g := g + 1;
      }
    }

    method FindPeer(addr: Addr) returns (f: Found)
      requires Valid()
      ensures f == FindByAddr(state.groups, addr)
    {
      for g := 0 to |groups|
        invariant FindByAddr(state.groups, addr) == FindFrom(state.groups, addr, g)
      {
        var c := groups[g].Find(addr);
        if c < |groups[g].conns| {
          return InConn(g, c);
        }
        if groups[g].lastAddr == addr {
          return AsLast(g);
        }
      }
      return Nowhere;
    }

    method Destroy(g: nat)
      requires Valid() && g < |groups|
      modifies this
      ensures Valid() && Repr == old(Repr)
      ensures groups == Without(old(groups), g) && state == Destroyed(old(state), g)
    {
      hide ConnGroup.Valid;
      WithoutAt(groups, g);
      WithoutAt(state.groups, g);
      groups := Without(groups, g);
      groupCount := groupCount - 1;
      state := Destroyed(state, g);
    }

    method DestroyAll()
      requires Valid()
      modifies this
      ensures Valid() && Repr == old(Repr) && groups == [] && state == AllDestroyed(old(state))
    {
      while groups != []
        invariant Valid() && Repr == old(Repr)
        invariant AllDestroyed(state) == AllDestroyed(old(state))
        decreases |groups|
      {
        Destroy(0);
      }
    }

    method Push(id: Id, addr: Addr, ts: int)
      requires Valid()
      modifies this
      ensures Valid() && fresh(Repr - old(Repr))
      ensures |groups| == old(|groups|) + 1
      ensures state == old(state).(groups := [Group(id, [], addr, ts)] + old(state).groups)
    {
      hide ConnGroup.Valid;
      var group := new ConnGroup(id, addr, ts);
      PushedAt(group, groups);
      groups := [group] + groups;
      Repr := Repr + group.Repr;
      state := state.(groups := [group.value] + state.groups);
    }

    method DestroyByAddr(addr: Addr)
      requires Valid()
      modifies this
      ensures Valid() && Repr == old(Repr) && state == WithoutAddr(old(state), addr)
    {
      var f := FindPeer(addr);
      if !f.Nowhere? {
        Destroy(f.g);
      }
    }

    method DestroyById(id: Id)
      requires Valid()
      modifies this
      ensures Valid() && Repr == old(Repr) && state == WithoutId(old(state), id)
    {
      hide Valid, ConnGroup.Valid, FindByAddr, Joined, Confirmed, GroupWithId;
      var g := FindById(id);
      if g < |groups| {
        Destroy(g);
      }
    }

    /** REG1: every group there is goes, then a new one is made.  `draws` are the
        outputs of the random source, `sent` the outcome of sending REG2. */
    method GroupRegistration(addr: Addr, id: Id, ts: int, draws: seq<Half>, sent: bool)
      returns (replies: seq<Reply>)
      requires Valid()
      modifies this
      ensures Valid() && fresh(Repr - old(Repr))
      ensures (state, replies) == GroupReg(old(state), addr, id, ts, draws, sent)
    {
      if groupCount >= MAX_GROUPS {
        return [RegErr];
      }
      Evict(addr, id);
      replies := Make(addr, id, ts, draws, sent);
    }

    method Evict(addr: Addr, id: Id)
      requires Valid()
      modifies this
      ensures Valid() && Repr == old(Repr) && groups == [] && state == Evicted(old(state), addr, id)
    {
      DestroyByAddr(addr);
      DestroyById(id);
      DestroyAll();
    }

    method Make(addr: Addr, id: Id, ts: int, draws: seq<Half>, sent: bool) returns (replies: seq<Reply>)
      requires Valid()
      modifies this
      ensures Valid() && fresh(Repr - old(Repr))
      ensures (state, replies) == Made(old(state), addr, id, ts, draws, sent)
    {
      hide Valid, FreshId, Destroyed;
      var made := DrawId(id[..HALF], draws);
      if made == [] {
        return [RegErr];
      }
      Push(made[0], addr, ts);
      if !sent {
        Destroy(0);
        return [RegErr];
      }
      CountOne();
      return [Reg2(made[0])];
    }

    method CountOne()
      requires Valid()
      modifies this
      ensures Valid() && Repr == old(Repr) && state == old(state).(count := old(state).count + 1)
    {
      groupCount := groupCount + 1;
      state := state.(count := state.count + 1);
    }

    /** Draws random halves until the id is new. */
    method DrawId(half: Half, draws: seq<Half>) returns (made: seq<Id>)
      requires Valid()
      ensures made == FreshId(state.groups, half, draws)
    {
      var k := 0;
      while k < |draws|
        invariant k <= |draws|
        invariant FreshId(state.groups, half, draws) == FreshId(state.groups, half, draws[k..])
      {
        var id := half + draws[k];
        var g := FindById(id);
        if g == |groups| {
          return [id];
        }
        k := k + 1;
      }
      return [];
    }

    /** Writes group g's new value through to the state. */
    ghost method Record(g: nat)
      requires this in Repr && g < |groups| && |state.groups| == |groups|
      requires groups[g].Repr <= Repr
      modifies this`state
      ensures state == old(state).(groups := old(state).groups[g := groups[g].value])
    {
      state := state.(groups := state.groups[g := groups[g].value]);
    }

    // Each of the following changes one group and records its new value.

    method Touch(g: nat, c: nat, ts: int)
      requires Valid() && g < |groups| && c < |groups[g].conns|
      modifies Repr
      ensures Valid() && Repr == old(Repr) && groups == old(groups)
      ensures var cs := old(state).groups[g].conns;
              state == WithConns(old(state), g, cs[c := cs[c].(lastRcvd := ts)])
    {
      groups[g].Touch(c, ts);
      Record(g);
    }

    method SetLastAddr(g: nat, addr: Addr)
      requires Valid() && g < |groups|
      modifies Repr
      ensures Valid() && Repr == old(Repr) && groups == old(groups)
      ensures state == old(state).(groups :=
        old(state).groups[g := old(state).groups[g].(lastAddr := addr)])
    {
      groups[g].SetLastAddr(addr);
      Record(g);
    }

    method Log(g: nat, c: nat, sn: Word) returns (replies: seq<Reply>)
      requires Valid() && g < |groups| && c < |groups[g].conns|
      modifies Repr
      ensures Valid() && Repr == old(Repr) && groups == old(groups)
      ensures var cs := old(state).groups[g].conns;
              && state == WithConns(old(state), g, cs[c := Registered(cs[c], sn).0])
              && replies == Registered(cs[c], sn).1
    {
      replies := groups[g].Log(c, sn);
      Record(g);
    }

    method CutAfter(g: nat, c: nat)
      requires Valid() && g < |groups| && c < |groups[g].conns|
      modifies Repr
      ensures Valid() && Repr == old(Repr) && groups == old(groups)
      ensures state == WithConns(old(state), g, old(state).groups[g].conns[c + 1..])
    {
      groups[g].CutAfter(c);
      Record(g);
    }

    method Detach(g: nat, c: nat)
      requires Valid() && g < |groups| && c < |groups[g].conns|
      modifies Repr
      ensures Valid() && Repr == old(Repr) && groups == old(groups)
      ensures state == WithConns(old(state), g, Without(old(state).groups[g].conns, c))
    {
      var conn := groups[g].Unlink(c);
      Record(g);
    }

    method Attach(g: nat, addr: Addr, ts: int)
      requires Valid() && g < |groups|
      modifies Repr
      ensures Valid() && fresh(Repr - old(Repr)) && groups == old(groups)
      ensures state == WithConns(old(state), g, [Conn(addr, ts, [])] + old(state).groups[g].conns)
    {
      hide ConnGroup.Valid, Connection.Valid, Connection.Value;
      var conn := new Connection(addr, ts);
      groups[g].Link(conn);
      Repr := Repr + {conn, conn.recvLog};
      Record(g);
    }

    method Sweep(g: nat, ts: int)
      requires Valid() && g < |groups|
      modifies Repr
      ensures Valid() && Repr == old(Repr) && groups == old(groups)
      ensures lastRan == old(lastRan) && groupCount == old(groupCount)
      ensures state == WithConns(old(state), g, LiveConns(old(state).groups[g].conns, ts))
    {
      groups[g].Sweep(ts);
      Record(g);
    }

    /** REG2: finds the connection, moves it from another group, or makes it.
        `memory` and `sent` are the outcomes of allocating it and of sending
        REG3. */
    method ConnRegistration(addr: Addr, id: Id, ts: int, memory: bool, sent: bool)
      returns (replies: seq<Reply>)
      requires Valid()
      modifies Repr
      ensures Valid() && fresh(Repr - old(Repr))
      ensures (state, replies) == ConnReg(old(state), addr, id, ts, memory, sent)
    {
      var g := FindById(id);
      if g == |groups| {
        return [RegNgp];
      }
      var f := FindPeer(addr);
      if !f.InConn? && !memory {
        return [RegErr];
      }
      var c := Join(g, addr, ts, f);
      replies := Confirm(g, c, addr, sent);
    }

    method Confirm(g: nat, c: nat, addr: Addr, sent: bool) returns (replies: seq<Reply>)
      requires Valid() && g < |groups| && c < |groups[g].conns|
      modifies Repr
      ensures Valid() && Repr == old(Repr)
      ensures (state, replies) == Confirmed(old(state), g, c, addr, sent)
    {
      if sent {
        SetLastAddr(g, addr);
        return [Reg3];
      }
      CutAfter(g, c);
      return [RegErr];
    }

    method Join(g: nat, addr: Addr, ts: int, f: Found) returns (c: nat)
      requires Valid() && g < |groups| && f == FindByAddr(state.groups, addr)
      modifies Repr
      ensures Valid() && fresh(Repr - old(Repr)) && groups == old(groups)
      ensures (state, c) == Joined(old(state), g, addr, ts)
    {
      if f.InConn? && f.g == g {
        Touch(g, f.c, ts);
        return f.c;
      }
      if f.InConn? {
        Detach(f.g, f.c);
      }
      Attach(g, addr, ts);
      return 0;
    }

    /** A packet that is no registration; `lost` is the outcome of passing it on
        to the SRT server. */
    method HandleData(addr: Addr, ts: int, n: nat, keepalive: bool, sn: int, lost: bool)
      returns (replies: seq<Reply>)
      requires Valid() && sn < TWO31
      modifies Repr
      ensures Valid() && Repr == old(Repr)
      ensures (state, replies) == Data(old(state), addr, ts, n, keepalive, sn, lost)
    {
      var f := FindPeer(addr);
      if !f.InConn? {
        return [];
      }
      Touch(f.g, f.c, ts);
      if keepalive {
        return [Echo];
      }
      if n < SRT_MIN_LEN {
        return [];
      }
      replies := LogFrom(f.g, f.c, addr, sn);
      DataByParts(old(state), f.g, f.c, addr, ts, sn);
      if lost {
        Destroy(f.g);
      }
    }

    method LogFrom(g: nat, c: nat, addr: Addr, sn: int) returns (replies: seq<Reply>)
      requires Valid() && g < |groups| && c < |groups[g].conns| && sn < TWO31
      modifies Repr
      ensures Valid() && Repr == old(Repr) && groups == old(groups)
      ensures (state, replies) == LoggedFrom(old(state), g, c, addr, sn)
    {
      SetLastAddr(g, addr);
      replies := [];
      if sn >= 0 {
        replies := Log(g, c, sn);
      }
    }

    /** Passes a packet from the SRT server on; the result is where it is sent. */
    method ForwardReply(g: nat, isAck: bool) returns (to: seq<Addr>)
      requires Valid() && g < |groups|
      ensures to == Destinations(state.groups[g], isAck)
    {
      if !isAck {
        return [groups[g].lastAddr];
      }
      to := [];
      var conns := groups[g].conns;
      for c := 0 to |conns|
        invariant |to| == c && forall i :: 0 <= i < c ==> to[i] == state.groups[g].conns[i].addr
      {
        to := to + [conns[c].addr];
      }
    }

    /** A fatal error on a reply drops the group's most recent peer. */
    method DropPeer(g: nat)
      requires Valid()
      modifies Repr
      ensures Valid() && Repr == old(Repr) && state == PeerDropped(old(state), g)
    {
      if g < |groups| {
        var c := groups[g].Find(groups[g].lastAddr);
        if c < |groups[g].conns| {
          Detach(g, c);
        }
      }
    }

    /** The periodic pass; it does nothing within 3 s of the last one. */
    method ConnectionCleanup(ts: int)
      requires Valid()
      modifies Repr
      ensures Valid() && Repr == old(Repr) && state == Cleanup(old(state), ts)
    {
      if lastRan + CLEANUP_PERIOD > ts {
        return;
      }
      lastRan := ts;
      state := state.(lastRan := ts);
      SweptFromStart(state, ts);
      SweepAll(ts);
    }

    method SweepAll(ts: int)
      requires Valid()
      modifies Repr
      ensures Valid() && Repr == old(Repr) && state == SweptFrom(old(state), 0, ts)
    {
      hide Valid, SweptOne;
      var g := 0;
      ghost var was := state;
      while g < |groups|
        invariant Valid() && Repr == old(Repr)
        invariant SweptFrom(state, g, ts) == SweptFrom(was, 0, ts)
        decreases |groups| - g
      {
        var live := SweepOne(g, ts);
        g := if live then g + 1 else g;
      }
    }

    /** One group's turn in the pass. */
    method SweepOne(g: nat, ts: int) returns (live: bool)
      requires Valid() && g < |groups|
      modifies Repr
      ensures Valid() && Repr == old(Repr) && |groups| == old(|groups|) - (if live then 0 else 1)
      ensures live == !Expired(Swept(old(state).groups[g], ts), ts)
      ensures state == SweptOne(old(state), g, ts)
    {
      Sweep(g, ts);
      live := !(groups[g].conns == [] && groups[g].createdAt + GROUP_TIMEOUT < ts);
      if !live {
        Destroy(g);
      }
    }
  }

  function SweptOne(s: State, g: nat, ts: int): (r: State)
    requires g < |s.groups|
    ensures |r.groups| == |s.groups| - if Expired(Swept(s.groups[g], ts), ts) then 1 else 0
  {
    var s1 := WithConns(s, g, LiveConns(s.groups[g].conns, ts));
    if Expired(Swept(s.groups[g], ts), ts) then Destroyed(s1, g) else s1
  }

  /** The pass from the g-th group on, one group at a time. */
  function SweptFrom(s: State, g: nat, ts: int): State
    decreases |s.groups| - g
  {
    if g >= |s.groups| then s
    else SweptFrom(SweptOne(s, g, ts), if Expired(Swept(s.groups[g], ts), ts) then g else g + 1, ts)
  }

  lemma {:induction false} SweptFromLive(s: State, g: nat, ts: int)
    requires g <= |s.groups|
    ensures var live := LiveGroups(s.groups[g..], ts);
            SweptFrom(s, g, ts) ==
              s.(groups := s.groups[..g] + live, count := s.count - (|s.groups| - g - |live|))
    decreases |s.groups| - g
  {
    if g == |s.groups| {
      assert s.groups[..g] + [] == s.groups;
    } else {
      var s' := SweptOne(s, g, ts);
      var swept := Swept(s.groups[g], ts);
      if Expired(swept, ts) {
        SweptFromLive(s', g, ts);
        assert s'.groups[g..] == s.groups[g..][1..];
        assert s'.groups[..g] == s.groups[..g];
      } else {
        SweptFromLive(s', g + 1, ts);
        assert s'.groups[g + 1..] == s.groups[g..][1..];
        assert s'.groups[..g + 1] == s.groups[..g] + [swept];
        var rest := LiveGroups(s.groups[g..][1..], ts);
        assert s.groups[..g] + ([swept] + rest) == (s.groups[..g] + [swept]) + rest;
      }
    }
  }

  lemma {:induction false} SweptFromStart(s: State, ts: int)
    ensures var live := LiveGroups(s.groups, ts);
            SweptFrom(s, 0, ts) == s.(groups := live, count := s.count - (|s.groups| - |live|))
  {
    SweptFromLive(s, 0, ts);
    assert s.groups[0..] == s.groups && s.groups[..0] == [];
  }

  function LoggedFrom(s: State, g: nat, c: nat, addr: Addr, sn: int): (r: (State, seq<Reply>))
    requires g < |s.groups| && c < |s.groups[g].conns| && sn < TWO31
  {
    var s1 := s.(groups := s.groups[g := s.groups[g].(lastAddr := addr)]);
    var cs := s1.groups[g].conns;
    if sn < 0 then (s1, [])
    else (WithConns(s1, g, cs[c := Registered(cs[c], sn).0]), Registered(cs[c], sn).1)
  }

  lemma {:induction false} DataByParts(s: State, g: nat, c: nat, addr: Addr, ts: int, sn: int)
    requires g < |s.groups| && c < |s.groups[g].conns| && sn < TWO31
    ensures var cs := s.groups[g].conns;
            var touched := cs[c].(lastRcvd := ts);
            var r := if sn >= 0 then Registered(touched, sn) else (touched, []);
            LoggedFrom(WithConns(s, g, cs[c := touched]), g, c, addr, sn) ==
              (s.(groups := s.groups[g := s.groups[g].(conns := cs[c := r.0], lastAddr := addr)]), r.1)
  {
    var cs := s.groups[g].conns;
    var touched := cs[c].(lastRcvd := ts);
    assert cs[c := touched][c] == touched;
    if sn >= 0 {
      assert cs[c := touched][c := Registered(touched, sn).0] == cs[c := Registered(touched, sn).0];
    }
    var r := if sn >= 0 then Registered(touched, sn) else (touched, []);
    var out := LoggedFrom(WithConns(s, g, cs[c := touched]), g, c, addr, sn).0;
    assert out.groups == s.groups[g := s.groups[g].(conns := cs[c := r.0], lastAddr := addr)];
  }
}
