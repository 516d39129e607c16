/** The registration handshake of one sender with the receiver, over a network
    that may lose, duplicate and reorder packets but does not forge them. */
module Registration {
  import opened Options
  import opened Receiver
  import opened Membership

  const REG2_TIMEOUT := 4
  const REG3_TIMEOUT := 4

  /** Packets to the receiver. */
  datatype Packet = Register(id: Id) | Join(id: Id)  // REG1, REG2

  /** The sender's registration state: its id, the link waiting for REG2, when
      that stops, and the number of live links. */
  datatype Sender = Sender(id: Id, pending: Option<Addr>, timeout: int, active: nat)

  datatype Outgoing = Outgoing(from: Addr, packet: Packet)

  // ---- the sender's reactions ----

  /** REG_NGP on link c; `sent` is the outcome of sending REG1. */
  function OnNgp(s: Sender, c: Addr, ts: int, sent: bool): (r: (Sender, seq<Outgoing>)) {
    if s.active == 0 && s.pending == None && ts > s.timeout && sent
    then (s.(pending := Some(c), timeout := ts + REG2_TIMEOUT), [Outgoing(c, Register(s.id))])
    else (s, [])
  }

  function JoinOnAll(links: seq<Addr>, id: Id): (r: seq<Outgoing>) {
    seq(|links|, i requires 0 <= i < |links| => Outgoing(links[i], Join(id)))
  }

  /** REG2 with an id on link c: adopted only on the pending link and only if
      its first half is the sender's own; then every link joins with it. */
  predicate Adopts(s: Sender, c: Addr, id: Id) {
    s.pending == Some(c) && id[..HALF] == s.id[..HALF]
  }

  function OnReg2(s: Sender, links: seq<Addr>, c: Addr, id: Id, ts: int): (r: (Sender, seq<Outgoing>)) {
    if Adopts(s, c, id)
    then (s.(id := id, pending := None, timeout := ts + REG3_TIMEOUT), JoinOnAll(links, id))
    else (s, [])
  }

  function OnReg3(s: Sender): Sender {
    s.(active := s.active + 1)
  }

  /** How housekeeping finds a link: without socket, timed out, due for another
      registration attempt, or neither. */
  datatype Status = NoSocket | TimedOut | Due | Settled

  function Retry(id: Id, pending: Option<Addr>, c: Addr, status: Status): (r: seq<Outgoing>)
    ensures |r| <= 1
  {
    match status
    case TimedOut =>
      if pending == None then [Outgoing(c, Join(id))]
      else if pending == Some(c) then [Outgoing(c, Register(id))]
      else []
    case Due =>
      [Outgoing(c, if pending == None then Register(id) else Join(id))]
    case NoSocket => []
    case Settled => []
  }

  function Retries(id: Id, pending: Option<Addr>, links: seq<Addr>, statuses: seq<Status>)
    : (r: seq<Outgoing>)
    requires |statuses| == |links|
  {
    if links == [] then []
    else
      var k := |links| - 1;
      Retries(id, pending, links[..k], statuses[..k]) + Retry(id, pending, links[k], statuses[k])
  }

  function Alive(statuses: seq<Status>): nat {
    if statuses == [] then 0
    else
      var k := |statuses| - 1;
      Alive(statuses[..k]) + (if statuses[k].Due? || statuses[k].Settled? then 1 else 0)
  }

  function OnHousekeeping(s: Sender, links: seq<Addr>, time: int, statuses: seq<Status>)
    : (r: (Sender, seq<Outgoing>))
    requires |statuses| == |links|
  {
    var s1 := if s.pending != None && time > s.timeout then s.(pending := None) else s;
    (s1.(active := Alive(statuses)), Retries(s1.id, s1.pending, links, statuses))
  }

  // ---- the same, in place ----

  class Registrar {
    const links: seq<Addr>
    var id: Id
    var pending: Option<Addr>
    var timeout: int
    var active: nat

    ghost function State(): Sender
      reads this
    {
      Sender(id, pending, timeout, active)
    }

    constructor (links: seq<Addr>, id: Id)
      ensures State() == Sender(id, None, 0, 0) && this.links == links
    {
      this.links, this.id, pending, timeout, active := links, id, None, 0, 0;
    }

    method HandleNgp(c: Addr, ts: int, sent: bool) returns (out: seq<Outgoing>)
      modifies this
      ensures (State(), out) == OnNgp(old(State()), c, ts, sent)
    {
      out := [];
      if active == 0 && pending == None && ts > timeout {
        if sent {
          out := [Outgoing(c, Register(id))];
          pending := Some(c);
          timeout := ts + REG2_TIMEOUT;
        }
      }
    }

    method HandleReg2(c: Addr, newId: Id, ts: int) returns (out: seq<Outgoing>)
      modifies this
      ensures (State(), out) == OnReg2(old(State()), links, c, newId, ts)
    {
      out := [];
      if pending == Some(c) {
        if newId[..HALF] != id[..HALF] {
          return;
        }
        id := newId;
        for i := 0 to |links|
          invariant out == JoinOnAll(links[..i], newId)
          invariant State() == old(State()).(id := newId)
        {
          out := out + [Outgoing(links[i], Join(id))];
        }
        assert links[..|links|] == links;
        pending := None;
        timeout := ts + REG3_TIMEOUT;
      }
    }

    method Housekeeping(time: int, statuses: seq<Status>) returns (out: seq<Outgoing>)
      requires |statuses| == |links|
      modifies this
      ensures (State(), out) == OnHousekeeping(old(State()), links, time, statuses)
    {
      out := [];
      active := 0;
      if pending != None && time > timeout {
        pending := None;
      }
      for i := 0 to |links|
        invariant id == old(id) && timeout == old(timeout) && active == Alive(statuses[..i])
        invariant pending == if old(pending) != None && time > timeout then None else old(pending)
        invariant out == Retries(id, pending, links[..i], statuses[..i])
      {
        assert links[..i + 1][..i] == links[..i] && statuses[..i + 1][..i] == statuses[..i];
        var attempt := Attempt(links[i], statuses[i]);
        out := out + attempt;
      }
      assert links[..|links|] == links && statuses[..|statuses|] == statuses;
    }

    /** One link's turn in housekeeping. */
    method Attempt(c: Addr, status: Status) returns (out: seq<Outgoing>)
      modifies this`active
      ensures out == Retry(id, pending, c, status)
      ensures active == old(active) + if status.Due? || status.Settled? then 1 else 0
    {
      out := [];
      if status.TimedOut? {
        if pending == None {
          out := [Outgoing(c, Join(id))];
        } else if pending == Some(c) {
          out := [Outgoing(c, Register(id))];
        }
      } else if !status.NoSocket? {
        if status.Due? {
          if pending == None {
            out := [Outgoing(c, Register(id))];
          } else {
            out := [Outgoing(c, Join(id))];
          }
        }
        active := active + 1;
      }
    }
  }

  // ---- the whole system ----

  /** An id the receiver made in answer to a REG1. */
  datatype Mint = Mint(to: Addr, request: Id, id: Id)

  datatype Incoming = Incoming(to: Addr, reply: Reply)

  /** `up` and `down` hold every packet ever sent to and by the receiver: the
      network delivers any of them any number of times, or never. */
  datatype System = System(snd: Sender, rcv: State, up: set<Outgoing>, down: set<Incoming>,
                           minted: set<Mint>, adopted: seq<Id>)

  datatype Event =
    | Housekeep(time: int, statuses: seq<Status>)
    | DeliverDown(to: Addr, reply: Reply, ts: int, sent: bool)
    | DeliverUp(from: Addr, packet: Packet, ts: int, draws: seq<Half>, memory: bool, sent: bool)
    | Elsewhere(e: Receiver.Event, ts: int)
    | Stranger(from: Addr, packet: Packet)

  function AsSet<T>(s: seq<T>): set<T> {
    set x | x in s
  }

  function Addressed(to: Addr, replies: seq<Reply>): set<Incoming> {
    set r | r in replies :: Incoming(to, r)
  }

  /** Deliveries need the packet to have been sent, strangers keep to addresses
      that are not the sender's, and the receiver does other work freely. */
  predicate Possible(y: System, links: seq<Addr>, e: Event) {
    match e
    case Housekeep(_, statuses) => |statuses| == |links|
    case DeliverDown(to, reply, _, _) => Incoming(to, reply) in y.down && to in links
    case DeliverUp(from, packet, _, _, _, _) => Outgoing(from, packet) in y.up
    case Elsewhere(e, _) => !e.Reg1From? && !e.Reg2From? && Sane(e)
    case Stranger(from, _) => from !in links
  }

  function SenderHears(y: System, links: seq<Addr>, to: Addr, reply: Reply, ts: int, sent: bool): System {
    match reply
    case RegNgp =>
      var (s, out) := OnNgp(y.snd, to, ts, sent);
      y.(snd := s, up := y.up + AsSet(out))
    case Reg2(id) =>
      var (s, out) := OnReg2(y.snd, links, to, id, ts);
      y.(snd := s, up := y.up + AsSet(out),
         adopted := if Adopts(y.snd, to, id) then y.adopted + [id] else y.adopted)
    case Reg3 => y.(snd := OnReg3(y.snd))
    case RegErr => y
    case Acked(_) => y
    case Echo => y
  }

  function ReceiverHears(y: System, from: Addr, packet: Packet, ts: int, draws: seq<Half>, memory: bool,
                         sent: bool): System {
    match packet
    case Register(id) =>
      var (r, out) := GroupReg(y.rcv, from, id, ts, draws, sent);
      y.(rcv := r, down := y.down + Addressed(from, out),
         minted := y.minted + (set m | m in out && m.Reg2? :: Mint(from, id, m.id)))
    case Join(id) =>
      var (r, out) := ConnReg(y.rcv, from, id, ts, memory, sent);
      y.(rcv := r, down := y.down + Addressed(from, out))
  }

  function Next(y: System, links: seq<Addr>, e: Event): System {
    if !Possible(y, links, e) then y
    else
      match e
      case Housekeep(time, statuses) =>
        var (s, out) := OnHousekeeping(y.snd, links, time, statuses);
        y.(snd := s, up := y.up + AsSet(out))
      case DeliverDown(to, reply, ts, sent) => SenderHears(y, links, to, reply, ts, sent)
      case DeliverUp(from, packet, ts, draws, memory, sent) =>
        ReceiverHears(y, from, packet, ts, draws, memory, sent)
      case Elsewhere(e, ts) => y.(rcv := Step(y.rcv, e, ts).0)
      case Stranger(from, packet) => y.(up := y.up + {Outgoing(from, packet)})
  }

  function History(links: seq<Addr>, id: Id, es: seq<Event>): System {
    if es == [] then System(Sender(id, None, 0, 0), INITIAL, {}, {}, {}, [])
    else Next(History(links, id, es[..|es| - 1]), links, es[|es| - 1])
  }

  // ---- the invariant ----

  /** The sender's own id at some time: the first one or an adopted one. */
  predicate OwnId(y: System, first: Id, id: Id) {
    id == first || id in y.adopted
  }

  /** The receiver made `id` in answer to a REG1 one of the links sent. */
  predicate AnsweredReg1(y: System, links: seq<Addr>, id: Id) {
    exists m :: m in y.minted && m.id == id && m.to in links && Outgoing(m.to, Register(m.request)) in y.up
  }

  ghost predicate Agreement(y: System, links: seq<Addr>, first: Id) {
    // the sender's half never changes, and every id it used was its own
    && y.snd.id[..HALF] == first[..HALF]
    && OwnId(y, first, y.snd.id)
    && (forall o :: o in y.up && o.from in links ==> OwnId(y, first, o.packet.id))
    // every adopted id answers one of its own REG1s and keeps its half
    && (forall id :: id in y.adopted ==> AnsweredReg1(y, links, id) && id[..HALF] == first[..HALF])
    // replies are real
    && (forall i :: i in y.down && i.reply.Reg2? ==>
          exists m :: m in y.minted && m.to == i.to && m.id == i.reply.id)
    && (forall m :: m in y.minted ==>
          Outgoing(m.to, Register(m.request)) in y.up && m.id[..HALF] == m.request[..HALF])
    // every member presented the group's id
    && Inv(y.rcv)
    && (forall addr :: |y.rcv.groups| == 1 && Has(y.rcv.groups[0].conns, addr) ==>
          Outgoing(addr, Join(y.rcv.groups[0].id)) in y.up)
  }

  /** Facts that only accumulate stay true. */
  lemma {:induction false} Monotone(y: System, y': System, links: seq<Addr>, first: Id)
    requires y.up <= y'.up && y.minted <= y'.minted && y.adopted <= y'.adopted
    ensures forall id :: OwnId(y, first, id) ==> OwnId(y', first, id)
    ensures forall id :: AnsweredReg1(y, links, id) ==> AnsweredReg1(y', links, id)
  {
    forall id | AnsweredReg1(y, links, id) ensures AnsweredReg1(y', links, id) {
      var m :| m in y.minted && m.id == id && m.to in links && Outgoing(m.to, Register(m.request)) in y.up;
      assert m in y'.minted;
    }
  }

  lemma {:induction false} RetriesUseOwnId(id: Id, pending: Option<Addr>, links: seq<Addr>,
                                           statuses: seq<Status>, o: Outgoing)
    requires |statuses| == |links| && o in Retries(id, pending, links, statuses)
    ensures o.packet.id == id
  {
    var k := |links| - 1;
    if o in Retries(id, pending, links[..k], statuses[..k]) {
      RetriesUseOwnId(id, pending, links[..k], statuses[..k], o);
    }
  }

  lemma {:induction false} HousekeepAgrees(y: System, links: seq<Addr>, first: Id, e: Event)
    requires Agreement(y, links, first) && e.Housekeep? && Possible(y, links, e)
    ensures Agreement(Next(y, links, e), links, first)
  {
    var y' := Next(y, links, e);
    Monotone(y, y', links, first);
    forall o | o in y'.up && o.from in links ensures OwnId(y', first, o.packet.id) {
      if o !in y.up {
        var pending := if y.snd.pending != None && e.time > y.snd.timeout then None else y.snd.pending;
        RetriesUseOwnId(y.snd.id, pending, links, e.statuses, o);
      }
    }
  }

  lemma NgpAgrees(y: System, links: seq<Addr>, first: Id, to: Addr, ts: int, sent: bool)
    requires Agreement(y, links, first)
    ensures Agreement(SenderHears(y, links, to, RegNgp, ts, sent), links, first)
  {
    hide Inv, Has;
    Monotone(y, SenderHears(y, links, to, RegNgp, ts, sent), links, first);
  }

  lemma Reg2Agrees(y: System, links: seq<Addr>, first: Id, to: Addr, id: Id, ts: int, sent: bool)
    requires Agreement(y, links, first) && Incoming(to, Reg2(id)) in y.down && to in links
    ensures Agreement(SenderHears(y, links, to, Reg2(id), ts, sent), links, first)
  {
    hide Inv, Has;
    Monotone(y, SenderHears(y, links, to, Reg2(id), ts, sent), links, first);
    if Adopts(y.snd, to, id) {
      var m :| m in y.minted && m.to == to && m.id == id;
      assert AnsweredReg1(y, links, id);
    }
  }

  lemma {:induction false} DeliverDownAgrees(y: System, links: seq<Addr>, first: Id, e: Event)
    requires Agreement(y, links, first) && e.DeliverDown? && Possible(y, links, e)
    ensures Agreement(Next(y, links, e), links, first)
  {
    hide Inv, Has, OnNgp, OnReg2;
    match e.reply
    case RegNgp => NgpAgrees(y, links, first, e.to, e.ts, e.sent);
    case Reg2(id) => Reg2Agrees(y, links, first, e.to, id, e.ts, e.sent);
    case Reg3 =>
    case RegErr =>
    case Acked(_) =>
    case Echo =>
  }

  lemma {:induction false} RegisterAgrees(y: System, links: seq<Addr>, first: Id, e: Event)
    requires Agreement(y, links, first) && e.DeliverUp? && e.packet.Register? && Possible(y, links, e)
    ensures Agreement(Next(y, links, e), links, first)
  {
    var y' := Next(y, links, e);
    Monotone(y, y', links, first);
    var re := Reg1From(e.from, e.packet.id, e.draws, e.sent);
    StepKeepsInv(y.rcv, re, e.ts);
    if y.rcv.count < MAX_GROUPS {
      GroupRegClosedForm(y.rcv, e.from, e.packet.id, e.ts, e.draws, e.sent);
    }
    forall addr | |y'.rcv.groups| == 1 && Has(y'.rcv.groups[0].conns, addr)
      ensures Outgoing(addr, Join(y'.rcv.groups[0].id)) in y'.up
    {
      StepAdmitsNoStranger(y.rcv, re, e.ts, addr);
    }
    MintedReal(y, links, e);
  }

  lemma {:induction false} MintedReal(y: System, links: seq<Addr>, e: Event)
    requires e.DeliverUp? && e.packet.Register? && Possible(y, links, e)
    ensures var y' := Next(y, links, e);
            && (forall m :: m in y'.minted && m !in y.minted ==>
                  m.to == e.from && m.request == e.packet.id && m.id[..HALF] == m.request[..HALF])
            && (forall i :: i in y'.down && i !in y.down && i.reply.Reg2? ==>
                  Mint(i.to, e.packet.id, i.reply.id) in y'.minted)
  {
    if y.rcv.count < MAX_GROUPS {
      GroupRegClosedForm(y.rcv, e.from, e.packet.id, e.ts, e.draws, e.sent);
    }
  }

  lemma {:induction false} JoinAgrees(y: System, links: seq<Addr>, first: Id, e: Event)
    requires Agreement(y, links, first) && e.DeliverUp? && e.packet.Join? && Possible(y, links, e)
    ensures Agreement(Next(y, links, e), links, first)
  {
    hide Inv, Has;
    var y' := Next(y, links, e);
    Monotone(y, y', links, first);
    var re := Reg2From(e.from, e.packet.id, e.memory, e.sent);
    StepKeepsInv(y.rcv, re, e.ts);
    forall addr | |y'.rcv.groups| == 1 && Has(y'.rcv.groups[0].conns, addr)
      ensures Outgoing(addr, Join(y'.rcv.groups[0].id)) in y'.up
    {
      StepAdmitsNoStranger(y.rcv, re, e.ts, addr);
    }
  }

  lemma {:induction false} ElsewhereAgrees(y: System, links: seq<Addr>, first: Id, e: Event)
    requires Agreement(y, links, first) && e.Elsewhere? && Possible(y, links, e)
    ensures Agreement(Next(y, links, e), links, first)
  {
    var y' := Next(y, links, e);
    Monotone(y, y', links, first);
    StepKeepsInv(y.rcv, e.e, e.ts);
    forall addr | |y'.rcv.groups| == 1 && Has(y'.rcv.groups[0].conns, addr)
      ensures Outgoing(addr, Join(y'.rcv.groups[0].id)) in y'.up
    {
      StepAdmitsNoStranger(y.rcv, e.e, e.ts, addr);
    }
  }

  lemma {:induction false} StrangerAgrees(y: System, links: seq<Addr>, first: Id, e: Event)
    requires Agreement(y, links, first) && e.Stranger? && Possible(y, links, e)
    ensures Agreement(Next(y, links, e), links, first)
  {
    Monotone(y, Next(y, links, e), links, first);
  }

  /** In every history: the first half of the sender's id never changes; every id
      it adopts was made by the receiver in answer to one of its own REG1s; and
      every member of a group presented that group's full id in a REG2. */
  lemma {:induction false} RegistrationAgrees(links: seq<Addr>, first: Id, es: seq<Event>)
    ensures Agreement(History(links, first, es), links, first)
  {
    if es != [] {
      var k := |es| - 1;
      RegistrationAgrees(links, first, es[..k]);
      var y, e := History(links, first, es[..k]), es[k];
      if Possible(y, links, e) {
        match e
        case Housekeep(_, _) => HousekeepAgrees(y, links, first, e);
        case DeliverDown(_, _, _, _) => DeliverDownAgrees(y, links, first, e);
        case DeliverUp(_, packet, _, _, _, _) =>
          if packet.Register? {
            RegisterAgrees(y, links, first, e);
          } else {
            JoinAgrees(y, links, first, e);
          }
        case Elsewhere(_, _) => ElsewhereAgrees(y, links, first, e);
        case Stranger(_, _) => StrangerAgrees(y, links, first, e);
      }
    }
  }

  /** So a group that has one of the sender's links among its members carries an
      id that was the sender's own. */
  lemma {:induction false} LinksOnlyInOwnGroups(links: seq<Addr>, first: Id, es: seq<Event>, addr: Addr)
    requires var y := History(links, first, es);
             |y.rcv.groups| == 1 && addr in links && Has(y.rcv.groups[0].conns, addr)
    ensures var y := History(links, first, es);
            OwnId(y, first, y.rcv.groups[0].id)
  {
    RegistrationAgrees(links, first, es);
    var y := History(links, first, es);
    assert Outgoing(addr, Join(y.rcv.groups[0].id)) in y.up;
  }
}
