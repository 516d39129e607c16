/** The sender's per-link state (`conn_t` of srtla_send.c) as a value, and the
    effect of every event on it.  The class in LinkSender.dfy updates the same
    fields in place and is proved to follow these functions. */
module Links {

  const LOG_SIZE := 256
  const CONN_TIMEOUT := 4
  const WINDOW_FLOOR := 1000
  const WINDOW_START := 20000
  const WINDOW_CEILING := 60000
  const WINDOW_MULT := 1000
  const WINDOW_DECR := 100
  const WINDOW_INCR := 30
  const CLEARED := -1

  /** One link: ring log of sequence numbers, next slot to write, packets in
      flight, congestion window, time of the last packet received. */
  datatype Link = Link(log: seq<int>, idx: nat, inFlight: int, window: int, lastRcvd: int)

  predicate Valid(l: Link) {
    |l.log| == LOG_SIZE && l.idx < LOG_SIZE && l.inFlight >= 0 && l.window >= 0
  }

  predicate AllValid(ls: seq<Link>) {
    forall i :: 0 <= i < |ls| ==> Valid(ls[i])
  }

  /** A link as the configuration reader allocates it: zero-filled. */
  function NewLink(): Link {
    Link(seq(LOG_SIZE, _ => 0), 0, 0, WINDOW_START, 0)
  }

  // ---- counting log entries ----

  /** How many entries of `s` are at least `lo`. */
  function CountGe(s: seq<int>, lo: int): (n: nat)
    ensures n <= |s|
  {
    if s == [] then 0
    else CountGe(s[..|s| - 1], lo) + (if s[|s| - 1] >= lo then 1 else 0)
  }

  lemma {:induction false} CountUpdate(s: seq<int>, i: nat, v: int, lo: int)
    requires i < |s|
    ensures CountGe(s[i := v], lo) + (if s[i] >= lo then 1 else 0)
         == CountGe(s, lo) + (if v >= lo then 1 else 0)
  {
    var last := |s| - 1;
    if i == last {
      assert s[i := v][..last] == s[..last];
    } else {
      assert s[i := v][..last] == s[..last][i := v];
      CountUpdate(s[..last], i, v, lo);
    }
  }

  /** Two logs whose entries pass their thresholds at the same places. */
  lemma {:induction false} CountSame(s: seq<int>, lo: int, s': seq<int>, lo': int)
    requires |s| == |s'|
    requires forall i :: 0 <= i < |s| ==> (s[i] >= lo <==> s'[i] >= lo')
    ensures CountGe(s, lo) == CountGe(s', lo')
  {
    if s != [] {
      CountSame(s[..|s| - 1], lo, s'[..|s| - 1], lo');
    }
  }

  lemma {:induction false} CountNone(s: seq<int>, lo: int)
    requires forall i :: 0 <= i < |s| ==> s[i] < lo
    ensures CountGe(s, lo) == 0
  {
    if s != [] {
      CountNone(s[..|s| - 1], lo);
    }
  }

  lemma {:induction false} CountAll(s: seq<int>, lo: int)
    ensures CountGe(s, lo) == |s| <==> forall i :: 0 <= i < |s| ==> s[i] >= lo
  {
    if s != [] {
      CountAll(s[..|s| - 1], lo);
    }
  }

  /** Entries at least `lo` among the slots a scan visits: every slot but `idx`. */
  function Searched(log: seq<int>, idx: nat, lo: int): nat
    requires idx < |log|
  {
    CountGe(log[idx := lo - 1], lo)
  }

  // ---- the backward ring scan ----

  /** The slot below i on the ring. */
  function Below(i: nat): (r: nat)
    requires i < LOG_SIZE
    ensures r < LOG_SIZE
  {
    if i == 0 then LOG_SIZE - 1 else i - 1
  }

  /** The slot visited at step k of the scan that starts just below `idx` and
      walks backwards around the ring. */
  function Slot(idx: nat, k: nat): (i: nat)
    requires idx < LOG_SIZE && 1 <= k <= LOG_SIZE
    ensures i < LOG_SIZE
  {
    if k <= idx then idx - k else idx - k + LOG_SIZE
  }

  /** The step at which slot i is visited; 256 for `idx` itself. */
  function StepOf(idx: nat, i: nat): (k: nat)
    requires idx < LOG_SIZE && i < LOG_SIZE
    ensures 1 <= k <= LOG_SIZE && Slot(idx, k) == i
  {
    if i < idx then idx - i else idx - i + LOG_SIZE
  }

  /** First slot, in scan order from step k on, that holds p; -1 if none. */
  function FindFrom(log: seq<int>, idx: nat, p: int, k: nat): (i: int)
    requires |log| == LOG_SIZE && idx < LOG_SIZE && 1 <= k <= LOG_SIZE
    ensures i == -1 || (0 <= i < LOG_SIZE && i != idx && log[i] == p)
    decreases LOG_SIZE - k
  {
    if k == LOG_SIZE then -1
    else if log[Slot(idx, k)] == p then Slot(idx, k)
    else FindFrom(log, idx, p, k + 1)
  }

  function Find(l: Link, p: int): (i: int)
    requires Valid(l)
    ensures i == -1 || (0 <= i < LOG_SIZE && i != l.idx && l.log[i] == p)
  {
    FindFrom(l.log, l.idx, p, 1)
  }

  lemma {:induction false} FindFromMisses(log: seq<int>, idx: nat, p: int, k: nat, i: nat)
    requires |log| == LOG_SIZE && idx < LOG_SIZE && 1 <= k <= LOG_SIZE
    requires FindFrom(log, idx, p, k) == -1
    requires i < LOG_SIZE && i != idx && k <= StepOf(idx, i)
    ensures log[i] != p
    decreases LOG_SIZE - k
  {
    if k < LOG_SIZE && Slot(idx, k) != i {
      FindFromMisses(log, idx, p, k + 1, i);
    }
  }

  /** The scan misses exactly when no slot but the skipped one holds p. */
  lemma {:induction false} FindComplete(l: Link, p: int)
    requires Valid(l)
    ensures Find(l, p) == -1 <==> forall i :: 0 <= i < LOG_SIZE && i != l.idx ==> l.log[i] != p
  {
    if Find(l, p) == -1 {
      forall i | 0 <= i < LOG_SIZE && i != l.idx ensures l.log[i] != p {
        FindFromMisses(l.log, l.idx, p, 1, i);
      }
    }
  }

  // ---- one link ----

  function Logged(l: Link, p: int): (r: Link)
    requires Valid(l)
    ensures Valid(r)
  {
    l.(log := l.log[l.idx := p], idx := (l.idx + 1) % LOG_SIZE, inFlight := l.inFlight + 1)
  }

  function Max(a: int, b: int): int { if a > b then a else b }

  function Min(a: int, b: int): int { if a < b then a else b }

  /** Loss charged to the link: the entry goes, the window shrinks, and the
      packet keeps counting as in flight. */
  function Charged(l: Link, slot: nat): (r: Link)
    requires Valid(l) && slot < LOG_SIZE
    ensures Valid(r)
  {
    l.(log := l.log[slot := CLEARED], window := Max(l.window - WINDOW_DECR, WINDOW_FLOOR))
  }

  /** Delivery credited to the link that carried the packet. */
  function Credited(l: Link, slot: nat): (r: Link)
    requires Valid(l) && slot < LOG_SIZE
    ensures Valid(r)
  {
    var inFlight := if l.inFlight > 0 then l.inFlight - 1 else l.inFlight;
    l.(log := l.log[slot := CLEARED], inFlight := inFlight,
       window := if inFlight * WINDOW_MULT > l.window then l.window + WINDOW_INCR - 1 else l.window)
  }

  /** Every SRTLA ACK also grows the window of every link heard from. */
  function Grown(l: Link): (r: Link)
    requires Valid(l)
    ensures Valid(r)
  {
    if l.lastRcvd != 0 then l.(window := Min(l.window + 1, WINDOW_CEILING)) else l
  }

  function ClearedBelow(log: seq<int>, idx: nat, ack: int): (r: seq<int>)
    requires idx < |log|
    ensures |r| == |log|
  {
    seq(|log|, i requires 0 <= i < |log| => if i != idx && log[i] < ack then CLEARED else log[i])
  }

  /** Cumulative acknowledgement: clear what is older, recount the rest. */
  function SrtAcked(l: Link, ack: int): (r: Link)
    requires Valid(l)
    ensures Valid(r)
  {
    l.(log := ClearedBelow(l.log, l.idx, ack), inFlight := Searched(l.log, l.idx, ack))
  }

  predicate TimedOut(l: Link, t: int) {
    l.lastRcvd + CONN_TIMEOUT < t
  }

  /** Housekeeping of one link with an open socket. */
  function Housekept(l: Link, t: int): (r: Link)
    requires Valid(l)
    ensures Valid(r)
  {
    if TimedOut(l, t) && l.lastRcvd > 0
    then Link(seq(LOG_SIZE, _ => CLEARED), l.idx, 0, WINDOW_FLOOR, 0)
    else l
  }

  // ---- all links ----

  function Score(l: Link): (s: int)
    requires Valid(l)
    ensures s >= 0
  {
    l.window / (l.inFlight + 1)
  }

  /** The scheduler's choice among the first n links: the earliest live link of
      greatest score, -1 if none is live. */
  function SelectAmong(ls: seq<Link>, t: int, n: nat): (r: int)
    requires AllValid(ls) && n <= |ls|
    ensures -1 <= r < n
    ensures r >= 0 ==> !TimedOut(ls[r], t)
    ensures forall j :: 0 <= j < n && !TimedOut(ls[j], t) ==>
      r >= 0 && (if j < r then Score(ls[j]) < Score(ls[r]) else Score(ls[j]) <= Score(ls[r]))
  {
    if n == 0 then -1
    else
      var r := SelectAmong(ls, t, n - 1);
      if TimedOut(ls[n - 1], t) then r
      else if r == -1 || Score(ls[n - 1]) > Score(ls[r]) then n - 1
      else r
  }

  function Select(ls: seq<Link>, t: int): (r: int)
    requires AllValid(ls)
    ensures -1 <= r < |ls|
  {
    SelectAmong(ls, t, |ls|)
  }

  /** First link from the k-th on whose searched log holds p; -1 if none. */
  function HolderFrom(ls: seq<Link>, p: int, k: nat): (j: int)
    requires AllValid(ls) && k <= |ls|
    ensures j == -1 || k <= j < |ls|
    ensures j >= 0 ==> Find(ls[j], p) >= 0
    ensures forall i :: k <= i < |ls| && (j == -1 || i < j) ==> Find(ls[i], p) == -1
    decreases |ls| - k
  {
    if k == |ls| then -1 else if Find(ls[k], p) >= 0 then k else HolderFrom(ls, p, k + 1)
  }

  function Holder(ls: seq<Link>, p: int): (j: int)
    requires AllValid(ls)
    ensures j == -1 || 0 <= j < |ls|
    ensures j >= 0 ==> Find(ls[j], p) >= 0
  {
    HolderFrom(ls, p, 0)
  }

  function Nak(ls: seq<Link>, p: int): (r: seq<Link>)
    requires AllValid(ls)
    ensures AllValid(r) && |r| == |ls|
  {
    var j := Holder(ls, p);
    if j == -1 then ls else ls[j := Charged(ls[j], Find(ls[j], p))]
  }

  /** What the SRTLA ACK of p does to link i when link j is the holder. */
  function AckedAt(l: Link, p: int, holds: bool): (r: Link)
    requires Valid(l) && (holds ==> Find(l, p) >= 0)
    ensures Valid(r)
  {
    Grown(if holds then Credited(l, Find(l, p)) else l)
  }

  function SrtlaAck(ls: seq<Link>, p: int): (r: seq<Link>)
    requires AllValid(ls)
    ensures AllValid(r) && |r| == |ls|
  {
    var j := Holder(ls, p);
    seq(|ls|, i requires 0 <= i < |ls| => AckedAt(ls[i], p, i == j))
  }

  function SrtAck(ls: seq<Link>, ack: int): (r: seq<Link>)
    requires AllValid(ls)
    ensures AllValid(r) && |r| == |ls|
  {
    seq(|ls|, i requires 0 <= i < |ls| => SrtAcked(ls[i], ack))
  }

  /** A packet from the SRT caller: `sent` tells whether sendto succeeded, sn is
      negative for a control packet. */
  function SrtData(ls: seq<Link>, t: int, sn: int, sent: bool): (r: seq<Link>)
    requires AllValid(ls)
    ensures AllValid(r) && |r| == |ls|
  {
    var i := Select(ls, t);
    if i == -1 then ls
    else if !sent then ls[i := ls[i].(lastRcvd := 1)]
    else if sn >= 0 then ls[i := Logged(ls[i], sn)]
    else ls
  }

  function Housekeeping(ls: seq<Link>, t: int, usable: set<nat>): (r: seq<Link>)
    requires AllValid(ls)
    ensures AllValid(r) && |r| == |ls|
  {
    seq(|ls|, i requires 0 <= i < |ls| => if i in usable then Housekept(ls[i], t) else ls[i])
  }

  /** What a packet from the receiver means to the link state. */
  datatype Message =
    | SrtAckOf(ack: int)
    | NakOf(lost: seq<int>)
    | SrtlaAckOf(acks: seq<int>)
    | Reg3
    | Other

  function Naks(ls: seq<Link>, lost: seq<int>): (r: seq<Link>)
    requires AllValid(ls)
    ensures AllValid(r) && |r| == |ls|
  {
    if lost == [] then ls else Nak(Naks(ls, lost[..|lost| - 1]), lost[|lost| - 1])
  }

  function SrtlaAcks(ls: seq<Link>, acks: seq<int>): (r: seq<Link>)
    requires AllValid(ls)
    ensures AllValid(r) && |r| == |ls|
  {
    if acks == [] then ls else SrtlaAck(SrtlaAcks(ls, acks[..|acks| - 1]), acks[|acks| - 1])
  }

  function Received(ls: seq<Link>, i: nat, ts: int, m: Message): (r: seq<Link>)
    requires AllValid(ls) && i < |ls|
    ensures AllValid(r) && |r| == |ls|
  {
    var heard := ls[i := ls[i].(lastRcvd := ts)];
    match m
    case SrtAckOf(ack) => SrtAck(heard, ack)
    case NakOf(lost) => Naks(heard, lost)
    case SrtlaAckOf(acks) => SrtlaAcks(heard, acks)
    case Reg3 => heard
    case Other => heard
  }
}
