/** The statistics callback in place: the scan for a slot, the ring of samples
    and its totals, and the sweep of stale peers. */
module RistObjects {
  import opened RistStats

  class RistInfo {
    const peers: array<Peer>
    const lostHistory: array<nat>
    const retriesHistory: array<nat>
    var historyIndex: nat
    var lostPackets: nat
    var retries: nat
    var peerCount: int
    var totalBytes: nat

    ghost predicate Valid()
      reads this
    {
      && peers.Length == SLOTS && historyIndex < WINDOW
      && lostHistory.Length == retriesHistory.Length == WINDOW && lostHistory != retriesHistory
    }

    ghost function Value(): Info
      reads this, peers, lostHistory, retriesHistory
    {
      Info(peers[..], peerCount, totalBytes, lostHistory[..], retriesHistory[..],
           historyIndex, lostPackets, retries)
    }

    constructor ()
      ensures Valid() && Value() == Created()
      ensures fresh(peers) && fresh(lostHistory) && fresh(retriesHistory)
    {
      peers := new Peer[SLOTS](_ => EMPTY_PEER);
      lostHistory := new nat[WINDOW](_ => 0);
      retriesHistory := new nat[WINDOW](_ => 0);
      historyIndex, lostPackets, retries, peerCount, totalBytes := 0, 0, 0, 0, 0;
      new;
      assert peers[..] == EmptyPeers(SLOTS);
      assert lostHistory[..] == Zeros(WINDOW) == retriesHistory[..];
    }

    /** The slot of the peer, else the first free one, else none (the length). */
    method FindSlot(id: int) returns (slot: nat)
      ensures slot == SlotFor(peers[..], id)
    {
      slot := peers.Length;
      ghost var ps := peers[..];
      for i := 0 to peers.Length
        invariant forall j :: 0 <= j < i ==> !(Live(ps[j]) && ps[j].id == id)
        invariant if slot == peers.Length then forall j :: 0 <= j < i ==> Live(ps[j])
                  else slot < i && !Live(ps[slot]) && forall j :: 0 <= j < slot ==> Live(ps[j])
      {
        assert peers[i] == ps[i];
        if peers[i].id == id && peers[i].seen > 0 {
          return i;
        } else if slot == peers.Length && peers[i].seen == 0 {
          slot := i;
        }
      }
    }

    method NotePeer(r: Report, now: nat)
      modifies peers
      ensures peers[..] == Note(old(peers[..]), r, now)
    {
      var slot := FindSlot(r.id);
      if slot < peers.Length {
        peers[slot] := Noted(peers[slot], r, now);
      }
    }

    method NotePeers(rs: seq<Report>, now: nat)
      modifies peers
      ensures peers[..] == NoteAll(old(peers[..]), rs, now)
    {
      hide Note;
      for i := 0 to |rs|
        invariant peers[..] == NoteAll(old(peers[..]), rs[..i], now)
      {
        assert rs[..i + 1][..i] == rs[..i];
        NotePeer(rs[i], now);
      }
      assert rs[..|rs|] == rs;
    }

    /** Frees the slots of stale peers and counts the others. */
    method Sweep(now: nat) returns (active: nat)
      modifies peers
      ensures peers[..] == Swept(old(peers[..]), now) && active == LiveCount(peers[..])
    {
      ghost var ps := peers[..];
      ghost var qs := Swept(ps, now);
      active := 0;
      for i := 0 to peers.Length
        invariant forall j :: 0 <= j < peers.Length ==> peers[j] == if j < i then qs[j] else ps[j]
        invariant active == LiveCount(qs[..i])
      {
        assert qs[..i + 1][..i] == qs[..i];
        if peers[i].seen > 0 {
          if Age(now, peers[i].seen) > STALE_MS {
            peers[i] := peers[i].(seen := 0, bytes := 0);
          } else {
            active := active + 1;
          }
        }
      }
      assert peers[..] == qs && qs[..peers.Length] == qs;
    }

    static method SumUp(ring: array<nat>) returns (total: nat)
      ensures total == Total(ring[..])
    {
      total := 0;
      for i := 0 to ring.Length
        invariant total == Total(ring[..i])
      {
        assert ring[..i + 1][..i] == ring[..i];
        total := Add32(total, ring[i]);
      }
      assert ring[..ring.Length] == ring[..];
    }

    method Sample(f: Flow)
      requires Valid()
      modifies this`historyIndex, this`lostPackets, this`retries, lostHistory, retriesHistory
      ensures Valid()
      ensures var u := Sampled(old(Value()), f);
              && lostHistory[..] == u.lostHistory && retriesHistory[..] == u.retriesHistory
              && historyIndex == u.index && lostPackets == u.lost && retries == u.retries
    {
      if f.NoFlow? {
        return;
      }
      var currentLost := U32(f.lost);
      if f.droppedLate > 0 {
        currentLost := Add32(currentLost, U32(f.droppedLate));
      }
      if f.droppedFull > 0 {
        currentLost := Add32(currentLost, U32(f.droppedFull));
      }
      lostHistory[historyIndex] := currentLost;
      retriesHistory[historyIndex] := U32(f.retries);
      historyIndex := (historyIndex + 1) % WINDOW;
      lostPackets := SumUp(lostHistory);
      retries := SumUp(retriesHistory);
    }

    method OnStats(e: Callback)
      requires Valid()
      modifies this, peers, lostHistory, retriesHistory
      ensures Valid() && Value() == Next(old(Value()), e)
    {
      hide NoteAll, Swept, LiveCount, Sampled;
      match e
      case Ignored =>
      case Unparsed(count, received) =>
        peerCount := count;
        totalBytes := (totalBytes + received) % TWO64;
      case Parsed(count, received, flow, reports, now) =>
        peerCount := count;
        totalBytes := (totalBytes + received) % TWO64;
        SampledFrame(old(Value()), Value(), flow);
        Sample(flow);
        NotePeers(reports, now);
        var active := Sweep(now);
        peerCount := active;
    }
  }

  /** A sample looks at nothing but the rings and touches nothing else. */
  lemma SampledFrame(s: Info, t: Info, f: Flow)
    requires Shaped(s) && t == s.(peerCount := t.peerCount, totalBytes := t.totalBytes)
    ensures Sampled(t, f) == Sampled(s, f).(peerCount := t.peerCount, totalBytes := t.totalBytes)
    ensures Sampled(s, f).peers == s.peers
  {
  }
}
