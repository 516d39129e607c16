/** The statistics of one RIST receiver: a fixed table of peers that stands for a
    bounded map, and totals over the last thirty samples. */
module RistStats {

  const SLOTS: nat := 32
  const WINDOW: nat := 30
  const STALE_MS: nat := 2000
  const TWO32: nat := 0x1_0000_0000
  const TWO64: nat := 0x1_0000_0000_0000_0000

  /** A slot of the table, free while `seen` is 0. */
  datatype Peer = Peer(id: int, ip: string, port: int, bytes: nat, seen: nat)

  /** One peer's part of a report; `bitrate` in bits per second. */
  datatype Report = Report(id: int, ip: string, port: int, bitrate: real)

  predicate Live(p: Peer) {
    p.seen > 0
  }

  /** Bytes of half a second, as the report adds them. */
  function Bytes(r: Report): nat {
    if r.bitrate < 0.0 then 0 else (r.bitrate / 16.0).Floor
  }

  function Added(bytes: nat, r: Report): nat {
    (bytes + Bytes(r)) % TWO64
  }

  /** Age of a slot by unsigned 64-bit subtraction. */
  function Age(now: nat, seen: nat): int {
    if seen <= now then now - seen else now - seen + TWO64
  }

  predicate Stale(p: Peer, now: nat) {
    Live(p) && Age(now, p.seen) > STALE_MS
  }

  // ---- the table ----

  /** First live slot of this id, |ps| if none. */
  function Match(ps: seq<Peer>, id: int): (k: nat)
    ensures k <= |ps|
    ensures k < |ps| ==> Live(ps[k]) && ps[k].id == id
    ensures forall i :: 0 <= i < k ==> !(Live(ps[i]) && ps[i].id == id)
  {
    if ps == [] then 0 else if Live(ps[0]) && ps[0].id == id then 0 else 1 + Match(ps[1..], id)
  }

  /** First free slot, |ps| if none. */
  function Free(ps: seq<Peer>): (k: nat)
    ensures k <= |ps|
    ensures k < |ps| ==> !Live(ps[k])
    ensures forall i :: 0 <= i < k ==> Live(ps[i])
  {
    if ps == [] then 0 else if !Live(ps[0]) then 0 else 1 + Free(ps[1..])
  }

  /** The slot a report goes to, |ps| if there is none for it. */
  function SlotFor(ps: seq<Peer>, id: int): nat {
    if Match(ps, id) < |ps| then Match(ps, id) else Free(ps)
  }

  function Noted(p: Peer, r: Report, now: nat): Peer {
    Peer(r.id, r.ip, r.port, Added(p.bytes, r), now)
  }

  function Note(ps: seq<Peer>, r: Report, now: nat): (qs: seq<Peer>)
    ensures |qs| == |ps|
  {
    var k := SlotFor(ps, r.id);
    if k < |ps| then ps[k := Noted(ps[k], r, now)] else ps
  }

  function NoteAll(ps: seq<Peer>, rs: seq<Report>, now: nat): (qs: seq<Peer>)
    ensures |qs| == |ps|
  {
    if rs == [] then ps else Note(NoteAll(ps, rs[..|rs| - 1], now), rs[|rs| - 1], now)
  }

  function Expired(p: Peer, now: nat): Peer {
    if Stale(p, now) then p.(seen := 0, bytes := 0) else p
  }

  function Swept(ps: seq<Peer>, now: nat): (qs: seq<Peer>)
    ensures |qs| == |ps| && forall i :: 0 <= i < |ps| ==> qs[i] == Expired(ps[i], now)
  {
    if ps == [] then [] else Swept(ps[..|ps| - 1], now) + [Expired(ps[|ps| - 1], now)]
  }

  function LiveCount(ps: seq<Peer>): (n: nat)
    ensures n <= |ps|
  {
    if ps == [] then 0 else LiveCount(ps[..|ps| - 1]) + if Live(ps[|ps| - 1]) then 1 else 0
  }

  // ---- the map it stands for ----

  type PeerMap = map<int, Peer>

  /** A report enters the map if its peer is there or a place is left. */
  function MapNote(m: PeerMap, r: Report, now: nat): PeerMap {
    if r.id in m then m[r.id := Noted(m[r.id], r, now)]
    else if |m| < SLOTS then m[r.id := Peer(r.id, r.ip, r.port, Bytes(r) % TWO64, now)]
    else m
  }

  function MapNoteAll(m: PeerMap, rs: seq<Report>, now: nat): PeerMap {
    if rs == [] then m else MapNote(MapNoteAll(m, rs[..|rs| - 1], now), rs[|rs| - 1], now)
  }

  function MapSwept(m: PeerMap, now: nat): PeerMap {
    map id | id in m && !Stale(m[id], now) :: m[id]
  }

  function Map(ps: seq<Peer>): PeerMap {
    if ps == [] then map[]
    else
      var m, p := Map(ps[..|ps| - 1]), ps[|ps| - 1];
      if Live(p) then m[p.id := p] else m
  }

  /** No two live slots hold the same id, and free slots hold no bytes. */
  predicate Sound(ps: seq<Peer>) {
    && (forall i, j :: 0 <= i < j < |ps| && Live(ps[i]) && Live(ps[j]) ==> ps[i].id != ps[j].id)
    && (forall i :: 0 <= i < |ps| && !Live(ps[i]) ==> ps[i].bytes == 0)
  }

  lemma MatchAppended(q: seq<Peer>, p: Peer, id: int)
    ensures Match(q + [p], id) < |q| + 1 <==> Match(q, id) < |q| || (Live(p) && p.id == id)
  {
    var ps := q + [p];
    if Match(q, id) < |q| {
      assert ps[Match(q, id)] == q[Match(q, id)];
    }
    if Match(ps, id) < |q| {
      assert q[Match(ps, id)] == ps[Match(ps, id)];
    }
    assert ps[|q|] == p;
  }

  /** The map's keys and values are the live slots. */
  lemma {:induction false} MapKeys(ps: seq<Peer>)
    requires Sound(ps)
    ensures forall id :: id in Map(ps) <==> Match(ps, id) < |ps|
    ensures forall i :: 0 <= i < |ps| && Live(ps[i]) ==> ps[i].id in Map(ps) && Map(ps)[ps[i].id] == ps[i]
  {
    hide Match;
    if ps != [] {
      var q, p := ps[..|ps| - 1], ps[|ps| - 1];
      assert ps == q + [p];
      MapKeys(q);
      forall id ensures id in Map(ps) <==> Match(ps, id) < |ps| {
        MatchAppended(q, p, id);
      }
      forall i | 0 <= i < |q| && Live(ps[i]) ensures ps[i].id in Map(ps) && Map(ps)[ps[i].id] == ps[i] {
        assert ps[i] == q[i];
      }
    }
  }

  /** The map is as large as the table has live slots. */
  lemma {:induction false} MapSize(ps: seq<Peer>)
    requires Sound(ps)
    ensures |Map(ps)| == LiveCount(ps)
  {
    if ps != [] {
      var q, p := ps[..|ps| - 1], ps[|ps| - 1];
      assert ps == q + [p];
      MapSize(q);
      MapKeys(q);
      if Live(p) {
        NewKey(ps);
      }
    }
  }

  lemma NewKey(ps: seq<Peer>)
    requires Sound(ps) && ps != [] && Live(ps[|ps| - 1])
    ensures ps[|ps| - 1].id !in Map(ps[..|ps| - 1])
  {
    hide Match, Map;
    var q, p := ps[..|ps| - 1], ps[|ps| - 1];
    MapKeys(q);
  }

  lemma {:induction false} FreeIffNotFull(ps: seq<Peer>)
    ensures Free(ps) < |ps| <==> LiveCount(ps) < |ps|
  {
    if ps != [] {
      var q, p := ps[..|ps| - 1], ps[|ps| - 1];
      FreeIffNotFull(q);
      if Free(q) < |q| {
        assert ps[Free(q)] == q[Free(q)];
      }
      if Free(ps) < |q| {
        assert q[Free(ps)] == ps[Free(ps)];
      }
    }
  }

  /** Whatever holds exactly the live slots is the map. */
  lemma MapIs(ps: seq<Peer>, m: PeerMap)
    requires Sound(ps)
    requires forall i :: 0 <= i < |ps| && Live(ps[i]) ==> ps[i].id in m && m[ps[i].id] == ps[i]
    requires forall id :: id in m ==> Match(ps, id) < |ps|
    ensures Map(ps) == m
  {
    hide Map, Sound;
    MapKeys(ps);
    forall id ensures id in Map(ps) <==> id in m {
      if id in Map(ps) {
        assert ps[Match(ps, id)].id in m;
      }
    }
    forall id | id in m ensures Map(ps)[id] == m[id] {
      assert Map(ps)[ps[Match(ps, id)].id] == ps[Match(ps, id)];
    }
  }

  /** Writing a live peer over a slot that was free, or was its own. */
  lemma SlotWritten(ps: seq<Peer>, k: nat, p: Peer)
    requires Sound(ps) && k < |ps| && Live(p)
    requires if Match(ps, p.id) < |ps| then k == Match(ps, p.id) else !Live(ps[k])
    ensures Sound(ps[k := p])
    ensures Map(ps[k := p]) == Map(ps)[p.id := p]
  {
    hide Map, Match;
    var qs, m := ps[k := p], Map(ps)[p.id := p];
    MapKeys(ps);
    forall i | 0 <= i < |qs| && Live(qs[i]) ensures i != k ==> qs[i].id != p.id {
    }
    forall id | id in m ensures Match(qs, id) < |qs| {
      var i := if id == p.id then k else Match(ps, id);
      assert Live(qs[i]) && qs[i].id == id;
    }
    MapIs(qs, m);
  }

  lemma FreshBytes(ps: seq<Peer>)
    requires Sound(ps)
    ensures forall i :: 0 <= i < |ps| && !Live(ps[i]) ==> ps[i].bytes == 0
  {
  }

  /** A report to the table is a report to the map. */
  lemma NoteRefines(ps: seq<Peer>, r: Report, now: nat)
    requires Sound(ps) && |ps| == SLOTS && now > 0
    ensures Sound(Note(ps, r, now)) && Map(Note(ps, r, now)) == MapNote(Map(ps), r, now)
  {
    hide Match, Map, Free, Sound, LiveCount;
    var k := SlotFor(ps, r.id);
    MapKeys(ps);
    MapSize(ps);
    FreeIffNotFull(ps);
    FreshBytes(ps);
    if k < |ps| {
      SlotWritten(ps, k, Noted(ps[k], r, now));
    }
  }

  lemma {:induction false} NoteAllRefines(ps: seq<Peer>, rs: seq<Report>, now: nat)
    requires Sound(ps) && |ps| == SLOTS && now > 0
    ensures Sound(NoteAll(ps, rs, now)) && Map(NoteAll(ps, rs, now)) == MapNoteAll(Map(ps), rs, now)
  {
    if rs != [] {
      NoteAllRefines(ps, rs[..|rs| - 1], now);
      NoteRefines(NoteAll(ps, rs[..|rs| - 1], now), rs[|rs| - 1], now);
    }
  }

  lemma SweepRefines(ps: seq<Peer>, now: nat)
    requires Sound(ps)
    ensures Sound(Swept(ps, now)) && Map(Swept(ps, now)) == MapSwept(Map(ps), now)
  {
    hide Map, Match, Swept;
    var qs, m := Swept(ps, now), MapSwept(Map(ps), now);
    MapKeys(ps);
    forall id | id in m ensures Match(qs, id) < |qs| {
      var i := Match(ps, id);
      assert Map(ps)[ps[i].id] == ps[i] && qs[i] == ps[i];
    }
    MapIs(qs, m);
  }

  // ---- the window ----

  function Add32(a: nat, b: nat): nat {
    (a + b) % TWO32
  }

  /** The total as it is summed up, wrapping at every step. */
  function Total(ring: seq<nat>): nat {
    if ring == [] then 0 else Add32(Total(ring[..|ring| - 1]), ring[|ring| - 1])
  }

  function Sum(xs: seq<nat>): nat {
    if xs == [] then 0 else Sum(xs[..|xs| - 1]) + xs[|xs| - 1]
  }

  /** The last thirty samples, or all if fewer. */
  function Recent<T>(samples: seq<T>): seq<T> {
    if |samples| <= WINDOW then samples else samples[|samples| - WINDOW..]
  }

  function Zeros(n: nat): (zs: seq<nat>)
    ensures |zs| == n && forall i :: 0 <= i < n ==> zs[i] == 0
  {
    if n == 0 then [] else Zeros(n - 1) + [0]
  }

  /** The ring read from its oldest slot holds the recent samples behind zeros
      for those not taken yet. */
  predicate Holds(ring: seq<nat>, index: nat, samples: seq<nat>) {
    && |ring| == WINDOW && index < WINDOW
    && ring[index..] + ring[..index] == Zeros(WINDOW - |Recent(samples)|) + Recent(samples)
  }

  function Turned(index: nat): nat {
    (index + 1) % WINDOW
  }

  lemma RingTurns(ring: seq<nat>, index: nat, x: nat)
    requires |ring| == WINDOW && index < WINDOW
    ensures var r := ring[index := x];
            r[Turned(index)..] + r[..Turned(index)] == (ring[index..] + ring[..index])[1..] + [x]
  {
  }

  lemma RecentShifts(samples: seq<nat>, x: nat)
    ensures var r := Zeros(WINDOW - |Recent(samples)|) + Recent(samples);
            r[1..] + [x] == Zeros(WINDOW - |Recent(samples + [x])|) + Recent(samples + [x])
  {
  }

  lemma {:induction false} SumJoins(a: seq<nat>, b: seq<nat>)
    ensures Sum(a + b) == Sum(a) + Sum(b)
  {
    if b == [] {
      assert a + b == a;
    } else {
      assert (a + b)[..|a + b| - 1] == a + b[..|b| - 1];
      SumJoins(a, b[..|b| - 1]);
    }
  }

  lemma {:induction false} SumZeros(n: nat)
    ensures Sum(Zeros(n)) == 0
  {
    if n > 0 {
      SumZeros(n - 1);
      assert Zeros(n)[..n - 1] == Zeros(n - 1);
    }
  }

  lemma {:induction false} TotalWraps(ring: seq<nat>)
    ensures Total(ring) == Sum(ring) % TWO32
  {
    if ring != [] {
      TotalWraps(ring[..|ring| - 1]);
    }
  }

  /** The ring keeps its meaning when a sample is put in. */
  lemma SampleHolds(ring: seq<nat>, index: nat, samples: seq<nat>, x: nat)
    requires Holds(ring, index, samples)
    ensures Holds(ring[index := x], Turned(index), samples + [x])
  {
    RingTurns(ring, index, x);
    RecentShifts(samples, x);
  }

  /** The total over the ring is the sum of the recent samples modulo 2^32. */
  lemma TotalIsRecentSum(ring: seq<nat>, index: nat, samples: seq<nat>)
    requires Holds(ring, index, samples)
    ensures Total(ring) == Sum(Recent(samples)) % TWO32
  {
    hide Sum, Total, Recent, Zeros;
    TotalWraps(ring);
    assert ring == ring[..index] + ring[index..];
    SumJoins(ring[..index], ring[index..]);
    SumJoins(ring[index..], ring[..index]);
    SumJoins(Zeros(WINDOW - |Recent(samples)|), Recent(samples));
    SumZeros(WINDOW - |Recent(samples)|);
  }

  // ---- callbacks ----

  /** The flow statistics of one report, as the integers it carries. */
  datatype Flow = NoFlow | Flow(lost: int, droppedLate: int, droppedFull: int, retries: int)

  /** A statistics callback: of no interest, with a report that does not parse, or
      with one that does.  `count` is the peer count it comes with. */
  datatype Callback =
    | Ignored
    | Unparsed(count: int, received: nat)
    | Parsed(count: int, received: nat, flow: Flow, reports: seq<Report>, now: nat)

  datatype Info = Info(peers: seq<Peer>, peerCount: int, totalBytes: nat, lostHistory: seq<nat>,
                       retriesHistory: seq<nat>, index: nat, lost: nat, retries: nat)

  const EMPTY_PEER := Peer(0, "", 0, 0, 0)

  function EmptyPeers(n: nat): (ps: seq<Peer>)
    ensures |ps| == n && forall i :: 0 <= i < n ==> ps[i] == EMPTY_PEER
  {
    if n == 0 then [] else EmptyPeers(n - 1) + [EMPTY_PEER]
  }

  function Created(): Info {
    Info(EmptyPeers(SLOTS), 0, 0, Zeros(WINDOW), Zeros(WINDOW), 0, 0, 0)
  }

  function U32(x: int): nat {
    x % TWO32
  }

  function LostNow(f: Flow): nat
    requires f.Flow?
  {
    var a := U32(f.lost);
    var b := if f.droppedLate > 0 then Add32(a, U32(f.droppedLate)) else a;
    if f.droppedFull > 0 then Add32(b, U32(f.droppedFull)) else b
  }

  function Sampled(s: Info, f: Flow): Info
    requires |s.lostHistory| == |s.retriesHistory| == WINDOW && s.index < WINDOW
  {
    if f.NoFlow? then s
    else
      var lost := s.lostHistory[s.index := LostNow(f)];
      var retries := s.retriesHistory[s.index := U32(f.retries)];
      s.(lostHistory := lost, retriesHistory := retries, index := Turned(s.index),
         lost := Total(lost), retries := Total(retries))
  }

  predicate Shaped(s: Info) {
    |s.peers| == SLOTS && |s.lostHistory| == |s.retriesHistory| == WINDOW && s.index < WINDOW
  }

  function Next(s: Info, e: Callback): (u: Info)
    requires Shaped(s)
    ensures Shaped(u)
  {
    match e
    case Ignored => s
    case Unparsed(count, received) => s.(peerCount := count, totalBytes := (s.totalBytes + received) % TWO64)
    case Parsed(_, received, flow, reports, now) =>
      var peers := Swept(NoteAll(s.peers, reports, now), now);
      Sampled(s, flow).(peers := peers, peerCount := LiveCount(peers),
                        totalBytes := (s.totalBytes + received) % TWO64)
  }

  function Run(es: seq<Callback>): (s: Info)
    ensures Shaped(s)
  {
    if es == [] then Created() else Next(Run(es[..|es| - 1]), es[|es| - 1])
  }

  /** Reports carry a time after the clock's start. */
  predicate WellFormed(es: seq<Callback>) {
    forall i :: 0 <= i < |es| && es[i].Parsed? ==> es[i].now > 0
  }

  // ---- what a run amounts to ----

  function MapNext(m: PeerMap, e: Callback): PeerMap {
    if e.Parsed? then MapSwept(MapNoteAll(m, e.reports, e.now), e.now) else m
  }

  function MapRun(es: seq<Callback>): PeerMap {
    if es == [] then map[] else MapNext(MapRun(es[..|es| - 1]), es[|es| - 1])
  }

  function LostSamples(es: seq<Callback>): seq<nat> {
    if es == [] then []
    else
      var xs, e := LostSamples(es[..|es| - 1]), es[|es| - 1];
      if e.Parsed? && e.flow.Flow? then xs + [LostNow(e.flow)] else xs
  }

  function RetrySamples(es: seq<Callback>): seq<nat> {
    if es == [] then []
    else
      var xs, e := RetrySamples(es[..|es| - 1]), es[|es| - 1];
      if e.Parsed? && e.flow.Flow? then xs + [U32(e.flow.retries)] else xs
  }

  /** The peer count last put there: by an unparsed report as it came, else the
      size of the map. */
  function CountRun(es: seq<Callback>): int {
    if es == [] then 0
    else
      match es[|es| - 1]
      case Ignored => CountRun(es[..|es| - 1])
      case Unparsed(count, _) => count
      case Parsed(_, _, _, _, _) => |MapRun(es)|
  }

  ghost predicate PeersExact(s: Info, es: seq<Callback>) {
    && Sound(s.peers) && |s.peers| == SLOTS
    && Map(s.peers) == MapRun(es)
    && LiveCount(s.peers) == |MapRun(es)|
    && s.peerCount == CountRun(es)
  }

  ghost predicate TotalsExact(s: Info, es: seq<Callback>) {
    && Holds(s.lostHistory, s.index, LostSamples(es))
    && Holds(s.retriesHistory, s.index, RetrySamples(es))
    && s.lost == Sum(Recent(LostSamples(es))) % TWO32
    && s.retries == Sum(Recent(RetrySamples(es))) % TWO32
  }

  lemma EmptyTable(n: nat)
    ensures Sound(EmptyPeers(n)) && Map(EmptyPeers(n)) == map[] && LiveCount(EmptyPeers(n)) == 0
  {
    if n > 0 {
      EmptyTable(n - 1);
      assert EmptyPeers(n)[..n - 1] == EmptyPeers(n - 1);
    }
  }

  lemma PeersStep(ps: seq<Peer>, m: PeerMap, rs: seq<Report>, now: nat)
    requires Sound(ps) && |ps| == SLOTS && Map(ps) == m && now > 0
    ensures var qs := Swept(NoteAll(ps, rs, now), now);
            && Sound(qs) && Map(qs) == MapSwept(MapNoteAll(m, rs, now), now)
            && LiveCount(qs) == |Map(qs)|
  {
    hide Sound, Map, NoteAll, Swept, LiveCount, MapSwept, MapNoteAll;
    NoteAllRefines(ps, rs, now);
    SweepRefines(NoteAll(ps, rs, now), now);
    MapSize(Swept(NoteAll(ps, rs, now), now));
  }

  /** The last callback that is not ignored; Ignored if there is none. */
  function LastHeard(es: seq<Callback>): Callback {
    if es == [] then Ignored
    else if es[|es| - 1].Ignored? then LastHeard(es[..|es| - 1])
    else es[|es| - 1]
  }

  /** The table is the bounded map, and no peer is in it twice. */
  lemma {:induction false} TableIsMap(es: seq<Callback>)
    requires WellFormed(es)
    ensures PeersExact(Run(es), es)
  {
    hide Sound, Map, NoteAll, Swept, LiveCount, MapSwept, MapNoteAll, Sampled;
    if es == [] {
      EmptyTable(SLOTS);
    } else {
      var p, e := es[..|es| - 1], es[|es| - 1];
      TableIsMap(p);
      if e.Parsed? {
        PeersStep(Run(p).peers, MapRun(p), e.reports, e.now);
      }
    }
  }

  lemma {:induction false} CountByLastHeard(es: seq<Callback>)
    ensures CountRun(es) == match LastHeard(es)
                            case Ignored => 0
                            case Unparsed(count, _) => count
                            case Parsed(_, _, _, _, _) => |MapRun(es)|
    ensures LastHeard(es).Ignored? ==> MapRun(es) == map[]
  {
    if es != [] {
      CountByLastHeard(es[..|es| - 1]);
    }
  }

  /** The peer count is the number of live slots if and only if the last callback
      that was not ignored parsed, or there was none, or the count it came with
      happens to be right. */
  lemma CountIsLive(es: seq<Callback>)
    requires WellFormed(es)
    ensures var s, last := Run(es), LastHeard(es);
            s.peerCount == LiveCount(s.peers) <==>
              last.Ignored? || last.Parsed? || last.count == |MapRun(es)|
  {
    TableIsMap(es);
    CountByLastHeard(es);
  }

  /** One report that does not parse is enough to show a peer that is not there. */
  lemma UnparsedMiscounts()
    ensures var s := Run([Unparsed(1, 0)]); s.peerCount == 1 && LiveCount(s.peers) == 0
  {
    var e := Unparsed(1, 0);
    assert [e][..0] == [];
    assert Run([e]) == Next(Run([]), e);
    EmptyTable(SLOTS);
  }

  lemma EmptyWindow()
    ensures Holds(Zeros(WINDOW), 0, []) && Sum(Recent<nat>([])) == 0
  {
    var z := Zeros(WINDOW);
    assert z[0..] + z[..0] == z && z + [] == z;
  }

  lemma SampledExact(s: Info, f: Flow, ls: seq<nat>, rs: seq<nat>)
    requires Shaped(s) && f.Flow?
    requires Holds(s.lostHistory, s.index, ls) && Holds(s.retriesHistory, s.index, rs)
    ensures var u := Sampled(s, f);
            && Holds(u.lostHistory, u.index, ls + [LostNow(f)])
            && Holds(u.retriesHistory, u.index, rs + [U32(f.retries)])
            && u.lost == Sum(Recent(ls + [LostNow(f)])) % TWO32
            && u.retries == Sum(Recent(rs + [U32(f.retries)])) % TWO32
  {
    hide Holds, Total, Sum, Recent, LostNow, U32, Turned;
    var u := Sampled(s, f);
    SampleHolds(s.lostHistory, s.index, ls, LostNow(f));
    SampleHolds(s.retriesHistory, s.index, rs, U32(f.retries));
    TotalIsRecentSum(u.lostHistory, u.index, ls + [LostNow(f)]);
    TotalIsRecentSum(u.retriesHistory, u.index, rs + [U32(f.retries)]);
  }

  /** The totals are the sums of the last thirty samples, or of all if fewer,
      modulo 2^32, after every run of callbacks. */
  lemma {:induction false} TotalsAreSlidingSums(es: seq<Callback>)
    ensures TotalsExact(Run(es), es)
  {
    hide Holds, Sum, Recent, Sampled, LostNow, U32, NoteAll, Swept, LiveCount;
    EmptyWindow();
    if es != [] {
      var p, e := es[..|es| - 1], es[|es| - 1];
      TotalsAreSlidingSums(p);
      if e.Parsed? && e.flow.Flow? {
        SampledExact(Run(p), e.flow, LostSamples(p), RetrySamples(p));
      } else if e.Parsed? {
        NoSample(Run(p));
      }
    }
  }

  lemma NoSample(s: Info)
    requires Shaped(s)
    ensures Sampled(s, NoFlow) == s
  {
  }

  // ---- the totals in the reports' own integers ----

  function Positive(x: int): nat {
    if x > 0 then x else 0
  }

  /** Packets a report counts as lost: those lost, and those dropped late or for
      a full queue where these counts are positive. */
  function LostIn(f: Flow): int
    requires f.Flow?
  {
    f.lost + Positive(f.droppedLate) + Positive(f.droppedFull)
  }

  type Counted = f: Flow | f.Flow? witness Flow(0, 0, 0, 0)

  /** The flow statistics that came in, in order. */
  function Flows(es: seq<Callback>): seq<Counted> {
    if es == [] then []
    else
      var fs, e := Flows(es[..|es| - 1]), es[|es| - 1];
      if e.Parsed? && e.flow.Flow? then fs + [e.flow] else fs
  }

  function LostSum(fs: seq<Counted>): int {
    if fs == [] then 0 else LostSum(fs[..|fs| - 1]) + LostIn(fs[|fs| - 1])
  }

  function RetrySum(fs: seq<Counted>): int {
    if fs == [] then 0 else RetrySum(fs[..|fs| - 1]) + fs[|fs| - 1].retries
  }

  lemma WrapsAdd(a: int, b: int)
    ensures Add32(U32(a), U32(b)) == U32(a + b)
  {
    var q, r := a / TWO32 + b / TWO32, U32(a) + U32(b);
    assert a + b == TWO32 * q + r;
    if r >= TWO32 {
      assert a + b == TWO32 * (q + 1) + (r - TWO32);
    }
  }

  lemma LostNowWraps(f: Counted)
    ensures LostNow(f) == U32(LostIn(f))
  {
    hide U32, Add32;
    WrapsAdd(f.lost, f.droppedLate);
    WrapsAdd(f.lost + Positive(f.droppedLate), f.droppedFull);
  }

  lemma WrappedSum(a: nat, b: int, x: nat, y: int)
    requires a % TWO32 == b % TWO32 && x % TWO32 == y % TWO32
    ensures (a + x) % TWO32 == (b + y) % TWO32
  {
  }

  function LostsNow(fs: seq<Counted>): (xs: seq<nat>)
    ensures |xs| == |fs| && forall i :: 0 <= i < |fs| ==> xs[i] == LostNow(fs[i])
  {
    if fs == [] then [] else LostsNow(fs[..|fs| - 1]) + [LostNow(fs[|fs| - 1])]
  }

  function RetriesNow(fs: seq<Counted>): (xs: seq<nat>)
    ensures |xs| == |fs| && forall i :: 0 <= i < |fs| ==> xs[i] == U32(fs[i].retries)
  {
    if fs == [] then [] else RetriesNow(fs[..|fs| - 1]) + [U32(fs[|fs| - 1].retries)]
  }

  lemma {:induction false} SamplesOfFlows(es: seq<Callback>)
    ensures LostSamples(es) == LostsNow(Flows(es)) && RetrySamples(es) == RetriesNow(Flows(es))
  {
    hide LostNow, U32;
    if es != [] {
      var p, e := es[..|es| - 1], es[|es| - 1];
      SamplesOfFlows(p);
      if e.Parsed? && e.flow.Flow? {
        assert (Flows(p) + [e.flow])[..|Flows(p)|] == Flows(p);
      }
    }
  }

  lemma {:induction false} SumsWrap(fs: seq<Counted>)
    ensures Sum(LostsNow(fs)) % TWO32 == LostSum(fs) % TWO32
    ensures Sum(RetriesNow(fs)) % TWO32 == RetrySum(fs) % TWO32
  {
    hide LostNow, LostIn;
    if fs != [] {
      var p, f := fs[..|fs| - 1], fs[|fs| - 1];
      SumsWrap(p);
      LostNowWraps(f);
      WrappedSum(Sum(LostsNow(p)), LostSum(p), LostNow(f), LostIn(f));
      WrappedSum(Sum(RetriesNow(p)), RetrySum(p), U32(f.retries), f.retries);
      assert LostsNow(fs)[..|p|] == LostsNow(p) && RetriesNow(fs)[..|p|] == RetriesNow(p);
    }
  }

  /** After every run the totals are, modulo 2^32, what the last thirty flow
      reports, or all if fewer, say in their own integers. */
  lemma TotalsCountLosses(es: seq<Callback>)
    ensures Run(es).lost == LostSum(Recent(Flows(es))) % TWO32
    ensures Run(es).retries == RetrySum(Recent(Flows(es))) % TWO32
  {
    hide Run, Sum, LostSum, RetrySum, LostNow, U32, Holds;
    var fs := Flows(es);
    TotalsAreSlidingSums(es);
    SamplesOfFlows(es);
    SumsWrap(Recent(fs));
    assert Recent(LostsNow(fs)) == LostsNow(Recent(fs));
    assert Recent(RetriesNow(fs)) == RetriesNow(Recent(fs));
  }

  // ---- who is in the table ----

  ghost predicate Named(rs: seq<Report>, id: int) {
    exists i :: 0 <= i < |rs| && rs[i].id == id
  }

  ghost predicate Mentions(e: Callback, id: int) {
    e.Parsed? && Named(e.reports, id)
  }

  /** When a peer was last reported, 0 if never. */
  ghost function LastReport(es: seq<Callback>, id: int): nat {
    if es == [] then 0
    else if Mentions(es[|es| - 1], id) then es[|es| - 1].now
    else LastReport(es[..|es| - 1], id)
  }

  /** The time of the last report that parsed, 0 if none. */
  function Clock(es: seq<Callback>): nat {
    if es == [] then 0
    else if es[|es| - 1].Parsed? then es[|es| - 1].now else Clock(es[..|es| - 1])
  }

  predicate Timed(es: seq<Callback>) {
    es == [] ||
    var p, e := es[..|es| - 1], es[|es| - 1];
    Timed(p) && (e.Parsed? ==> 0 < e.now && Clock(p) <= e.now)
  }

  predicate Within(e: Callback, ids: set<int>) {
    e.Parsed? ==> forall i :: 0 <= i < |e.reports| ==> e.reports[i].id in ids
  }

  /** Bytes the reports of one callback add to a peer. */
  function Reported(rs: seq<Report>, id: int): nat {
    if rs == [] then 0
    else Reported(rs[..|rs| - 1], id) + if rs[|rs| - 1].id == id then Bytes(rs[|rs| - 1]) else 0
  }

  /** Half a second of the rate, in whole bytes. */
  lemma BytesAreHalfASecond(r: Report)
    requires r.bitrate >= 0.0
    ensures 16.0 * Bytes(r) as real <= r.bitrate < 16.0 * (Bytes(r) + 1) as real
  {
  }

  function BytesIn(m: PeerMap, id: int): nat {
    if id in m then m[id].bytes else 0
  }

  lemma {:induction false} NoteAllAddsBytes(m: PeerMap, rs: seq<Report>, now: nat, ids: set<int>)
    requires m.Keys <= ids && |ids| <= SLOTS
    requires forall i :: 0 <= i < |rs| ==> rs[i].id in ids
    requires forall id :: id in m ==> m[id].bytes < TWO64
    ensures forall id :: BytesIn(MapNoteAll(m, rs, now), id) == (BytesIn(m, id) + Reported(rs, id)) % TWO64
  {
    hide Bytes, Named, MapNote;
    if rs != [] {
      var p, r := rs[..|rs| - 1], rs[|rs| - 1];
      NoteAllAddsBytes(m, p, now, ids);
      NoteAllWithRoom(m, p, now, ids);
      var n := MapNoteAll(m, p, now);
      if r.id !in n {
        SmallerKeys(n, r.id, ids);
      }
      forall id ensures BytesIn(MapNoteAll(m, rs, now), id) == (BytesIn(m, id) + Reported(rs, id)) % TWO64 {
        NoteAddsBytes(n, r, now, id);
        if id == r.id {
          WrappedTwice(BytesIn(m, id) + Reported(p, id), Bytes(r));
        }
      }
    }
  }

  lemma NoteAddsBytes(m: PeerMap, r: Report, now: nat, id: int)
    requires r.id in m || |m| < SLOTS
    ensures BytesIn(MapNote(m, r, now), id) ==
      if id == r.id then (BytesIn(m, id) + Bytes(r)) % TWO64 else BytesIn(m, id)
  {
    hide Bytes;
  }

  lemma WrappedTwice(a: nat, b: nat)
    ensures (a % TWO64 + b) % TWO64 == (a + b) % TWO64
  {
  }

  lemma {:induction false} NoteAllWithRoom(m: PeerMap, rs: seq<Report>, now: nat, ids: set<int>)
    requires m.Keys <= ids && |ids| <= SLOTS
    requires forall i :: 0 <= i < |rs| ==> rs[i].id in ids
    ensures MapNoteAll(m, rs, now).Keys <= ids
    ensures forall id :: id in MapNoteAll(m, rs, now) <==> id in m || Named(rs, id)
    ensures forall id :: id in MapNoteAll(m, rs, now) ==>
              MapNoteAll(m, rs, now)[id].seen == if Named(rs, id) then now else m[id].seen
  {
    hide MapNote, Named;
    if rs == [] {
      NamedAppended([], Report(0, "", 0, 0.0));
    } else {
      var p, r := rs[..|rs| - 1], rs[|rs| - 1];
      NoteAllWithRoom(m, p, now, ids);
      var n := MapNoteAll(m, p, now);
      if r.id !in n {
        SmallerKeys(n, r.id, ids);
      }
      NoteWithRoom(n, r, now);
      NamedAppended(p, r);
      assert rs == p + [r];
    }
  }

  lemma NamedAppended(p: seq<Report>, r: Report)
    ensures forall id :: !Named([], id)
    ensures forall id :: Named(p + [r], id) <==> id == r.id || Named(p, id)
  {
    var rs := p + [r];
    assert rs[|p|] == r;
    forall id | Named(p, id) ensures Named(rs, id) {
      var i :| 0 <= i < |p| && p[i].id == id;
      assert rs[i].id == id;
    }
  }

  lemma NoteWithRoom(m: PeerMap, r: Report, now: nat)
    requires r.id in m || |m| < SLOTS
    ensures MapNote(m, r, now).Keys == m.Keys + {r.id}
    ensures forall id :: id in m || id == r.id ==>
              MapNote(m, r, now)[id].seen == if id == r.id then now else m[id].seen
  {
  }

  lemma SmallerKeys(m: PeerMap, id: int, ids: set<int>)
    requires m.Keys <= ids && id in ids && id !in m
    ensures |m| < |ids|
  {
    SubsetSize(m.Keys, ids - {id});
    assert |m| == |m.Keys|;
  }

  lemma SubsetSize(a: set<int>, b: set<int>)
    requires a <= b
    ensures |a| <= |b|
  {
    assert a + (b - a) == b;
  }

  lemma {:induction false} RecentPeersAreMapped(es: seq<Callback>, ids: set<int>)
    requires Timed(es) && |ids| <= SLOTS
    requires forall i :: 0 <= i < |es| ==> Within(es[i], ids)
    ensures MapRun(es).Keys <= ids
    ensures forall id :: LastReport(es, id) <= Clock(es)
    ensures forall id :: id in MapRun(es) <==>
              LastReport(es, id) > 0 && Clock(es) - LastReport(es, id) <= STALE_MS
    ensures forall id :: id in MapRun(es) ==> MapRun(es)[id].seen == LastReport(es, id)
  {
    if es != [] {
      var p, e := es[..|es| - 1], es[|es| - 1];
      RecentPeersAreMapped(p, ids);
      if e.Parsed? {
        assert Within(es[|es| - 1], ids);
        NoteAllWithRoom(MapRun(p), e.reports, e.now, ids);
      }
    }
  }

  lemma {:induction false} TimedIsWellFormed(es: seq<Callback>)
    requires Timed(es)
    ensures WellFormed(es)
  {
    if es != [] {
      var p := es[..|es| - 1];
      TimedIsWellFormed(p);
      forall i | 0 <= i < |p| ensures p[i] == es[i] {
      }
    }
  }

  /** As long as no more than thirty-two peers ever report, a live slot holds a
      peer exactly if it was reported within the last two seconds of the table's
      clock, and the slot knows when. */
  lemma RecentPeersAreListed(es: seq<Callback>, ids: set<int>, id: int)
    requires Timed(es) && |ids| <= SLOTS
    requires forall i :: 0 <= i < |es| ==> Within(es[i], ids)
    ensures var ps := Run(es).peers;
            && ((exists i :: 0 <= i < |ps| && Live(ps[i]) && ps[i].id == id) <==>
                  LastReport(es, id) > 0 && Clock(es) - LastReport(es, id) <= STALE_MS)
            && (forall i :: 0 <= i < |ps| && Live(ps[i]) && ps[i].id == id ==> ps[i].seen == LastReport(es, id))
  {
    hide Run, MapRun, Map, Sound;
    TimedIsWellFormed(es);
    TableIsMap(es);
    RecentPeersAreMapped(es, ids);
    MapKeys(Run(es).peers);
  }

  /** Bytes counted for a peer since a sweep last found it stale. */
  ghost function Carried(es: seq<Callback>, id: int): nat {
    if es == [] then 0
    else
      var p, e := es[..|es| - 1], es[|es| - 1];
      if !e.Parsed? then Carried(p, id)
      else if LastReport(es, id) == 0 || e.now - LastReport(es, id) > STALE_MS then 0
      else Carried(p, id) + Reported(e.reports, id)
  }

  lemma {:induction false} PeersCarryBytes(es: seq<Callback>, ids: set<int>)
    requires Timed(es) && |ids| <= SLOTS
    requires forall i :: 0 <= i < |es| ==> Within(es[i], ids)
    ensures forall id :: BytesIn(MapRun(es), id) == Carried(es, id) % TWO64
  {
    hide Bytes, Named;
    if es != [] {
      var p, e := es[..|es| - 1], es[|es| - 1];
      PeersCarryBytes(p, ids);
      RecentPeersAreMapped(p, ids);
      RecentPeersAreMapped(es, ids);
      if e.Parsed? {
        assert Within(es[|es| - 1], ids);
        forall id | id in MapRun(p) ensures MapRun(p)[id].bytes < TWO64 {
          assert BytesIn(MapRun(p), id) == Carried(p, id) % TWO64;
        }
        NoteAllAddsBytes(MapRun(p), e.reports, e.now, ids);
        forall id ensures BytesIn(MapRun(es), id) == Carried(es, id) % TWO64 {
          WrappedTwice(Carried(p, id), Reported(e.reports, id));
        }
      }
    }
  }

  /** A live slot's bytes are those its peer reported, half a second at a time,
      since a sweep last found it stale, modulo 2^64. */
  lemma SlotsCarryBytes(es: seq<Callback>, ids: set<int>, i: nat)
    requires Timed(es) && |ids| <= SLOTS
    requires forall k :: 0 <= k < |es| ==> Within(es[k], ids)
    requires i < SLOTS && Live(Run(es).peers[i])
    ensures var p := Run(es).peers[i]; p.bytes == Carried(es, p.id) % TWO64
  {
    hide Run, MapRun, Map, Sound;
    TimedIsWellFormed(es);
    TableIsMap(es);
    PeersCarryBytes(es, ids);
    MapKeys(Run(es).peers);
    var p := Run(es).peers[i];
    assert BytesIn(MapRun(es), p.id) == Carried(es, p.id) % TWO64;
  }

  // ---- the rest of a slot, and the bytes of the receiver ----

  /** The last report of a peer. */
  ghost function ReportIn(rs: seq<Report>, id: int): Report
    requires Named(rs, id)
  {
    if rs[|rs| - 1].id == id then rs[|rs| - 1]
    else
      assert Named(rs[..|rs| - 1], id) by { NamedAppended(rs[..|rs| - 1], rs[|rs| - 1]);
                                            assert rs == rs[..|rs| - 1] + [rs[|rs| - 1]]; }
      ReportIn(rs[..|rs| - 1], id)
  }

  predicate Shows(p: Peer, r: Report) {
    p.id == r.id && p.ip == r.ip && p.port == r.port
  }

  lemma {:induction false} NoteAllShows(m: PeerMap, rs: seq<Report>, now: nat, ids: set<int>)
    requires m.Keys <= ids && |ids| <= SLOTS
    requires forall i :: 0 <= i < |rs| ==> rs[i].id in ids
    ensures var n := MapNoteAll(m, rs, now);
            forall id :: id in n ==>
              if Named(rs, id) then Shows(n[id], ReportIn(rs, id))
              else id in m && n[id].ip == m[id].ip && n[id].port == m[id].port && n[id].id == m[id].id
  {
    hide MapNote, Named;
    if rs == [] {
      NamedAppended([], Report(0, "", 0, 0.0));
    } else {
      var p, r := rs[..|rs| - 1], rs[|rs| - 1];
      NoteAllShows(m, p, now, ids);
      NoteAllWithRoom(m, p, now, ids);
      var n := MapNoteAll(m, p, now);
      if r.id !in n {
        SmallerKeys(n, r.id, ids);
      }
      NamedAppended(p, r);
      assert rs == p + [r];
      NoteShows(n, r, now);
    }
  }

  lemma NoteShows(m: PeerMap, r: Report, now: nat)
    requires r.id in m || |m| < SLOTS
    ensures var n := MapNote(m, r, now);
            && r.id in n && Shows(n[r.id], r) && n.Keys == m.Keys + {r.id}
            && forall id :: id in m && id != r.id ==> n[id] == m[id]
  {
  }

  /** What the reports last said of a peer. */
  ghost predicate LastSaid(es: seq<Callback>, id: int, p: Peer) {
    es != [] &&
    if Mentions(es[|es| - 1], id) then Shows(p, ReportIn(es[|es| - 1].reports, id))
    else LastSaid(es[..|es| - 1], id, p)
  }

  lemma {:induction false} SaidAlike(es: seq<Callback>, id: int, p: Peer, q: Peer)
    requires LastSaid(es, id, p) && q.id == p.id && q.ip == p.ip && q.port == p.port
    ensures LastSaid(es, id, q)
  {
    hide Mentions, ReportIn;
    if !Mentions(es[|es| - 1], id) {
      SaidAlike(es[..|es| - 1], id, p, q);
    }
  }

  lemma {:induction false} MapShowsLastReport(es: seq<Callback>, ids: set<int>)
    requires Timed(es) && |ids| <= SLOTS
    requires forall i :: 0 <= i < |es| ==> Within(es[i], ids)
    ensures forall id :: id in MapRun(es) ==> LastSaid(es, id, MapRun(es)[id])
  {
    hide ReportIn, Named;
    if es != [] {
      var p, e := es[..|es| - 1], es[|es| - 1];
      MapShowsLastReport(p, ids);
      RecentPeersAreMapped(p, ids);
      if e.Parsed? {
        assert Within(es[|es| - 1], ids);
        NoteAllShows(MapRun(p), e.reports, e.now, ids);
        forall id | id in MapRun(es) ensures LastSaid(es, id, MapRun(es)[id]) {
          if !Named(e.reports, id) {
            SaidAlike(p, id, MapRun(p)[id], MapRun(es)[id]);
          }
        }
      }
    }
  }

  /** A live slot shows the address and port its peer was last reported with. */
  lemma SlotsShowLastReport(es: seq<Callback>, ids: set<int>, i: nat)
    requires Timed(es) && |ids| <= SLOTS
    requires forall k :: 0 <= k < |es| ==> Within(es[k], ids)
    requires i < SLOTS && Live(Run(es).peers[i])
    ensures LastSaid(es, Run(es).peers[i].id, Run(es).peers[i])
  {
    hide Run, MapRun, Map, Sound, LastSaid;
    TimedIsWellFormed(es);
    TableIsMap(es);
    MapShowsLastReport(es, ids);
    MapKeys(Run(es).peers);
  }

  function ReceivedSum(es: seq<Callback>): nat {
    if es == [] then 0
    else ReceivedSum(es[..|es| - 1]) + match es[|es| - 1]
                                       case Ignored => 0
                                       case Unparsed(_, received) => received
                                       case Parsed(_, received, _, _, _) => received
  }

  /** The receiver's bytes are those of all reports that counted, modulo 2^64. */
  lemma {:induction false} BytesAddUp(es: seq<Callback>)
    ensures Run(es).totalBytes == ReceivedSum(es) % TWO64
  {
    hide NoteAll, Swept, LiveCount;
    if es != [] {
      var p, e := es[..|es| - 1], es[|es| - 1];
      BytesAddUp(p);
      if e.Parsed? {
        WrappedTwice(ReceivedSum(p), e.received);
        SampleLeavesBytes(Run(p), e.flow);
      } else if e.Unparsed? {
        WrappedTwice(ReceivedSum(p), e.received);
      }
    }
  }

  lemma SampleLeavesBytes(s: Info, f: Flow)
    requires Shaped(s)
    ensures Sampled(s, f).totalBytes == s.totalBytes
  {
  }
}
