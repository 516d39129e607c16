/** The receiver sends a copy of every SRT ACK down every link, so the sender
    sees them duplicated and reordered.  They still form a join: only the
    greatest one counts. */
module CumulativeAcks {
  import opened Links

  /** ACKs handled one after the other with no send in between. */
  function SrtAcks(l: Link, acks: seq<int>): (r: Link)
    requires Valid(l)
    ensures Valid(r)
  {
    if acks == [] then l else SrtAcked(SrtAcks(l, acks[..|acks| - 1]), acks[|acks| - 1])
  }

  function Greatest(acks: seq<int>): (m: int)
    requires acks != []
    ensures m in acks && forall a :: a in acks ==> a <= m
  {
    if |acks| == 1 then acks[0]
    else
      var m := Greatest(acks[..|acks| - 1]);
      var a := acks[|acks| - 1];
      assert forall b :: b in acks ==> b in acks[..|acks| - 1] || b == a;
      if a > m then a else m
  }

  /** No entry lies below the cleared value: true of every reachable log, since
      only sequence numbers >= 0 and -1 are stored. */
  predicate WellFormedLog(l: Link) {
    Valid(l) && forall i :: 0 <= i < LOG_SIZE ==> l.log[i] >= CLEARED
  }

  lemma {:induction false} LogAfter(l: Link, acks: seq<int>)
    requires WellFormedLog(l) && acks != []
    ensures SrtAcks(l, acks).log == ClearedBelow(l.log, l.idx, Greatest(acks))
    ensures SrtAcks(l, acks) == l.(log := SrtAcks(l, acks).log, inFlight := SrtAcks(l, acks).inFlight)
  {
    if |acks| == 1 {
      assert SrtAcks(l, acks) == SrtAcked(SrtAcks(l, []), acks[0]) by { assert acks[..0] == []; }
    } else {
      LogAfter(l, acks[..|acks| - 1]);
    }
  }

  lemma {:induction false} InFlightAfter(l: Link, acks: seq<int>)
    requires WellFormedLog(l) && acks != []
    ensures SrtAcks(l, acks).inFlight ==
            if acks[|acks| - 1] >= 0 then Searched(l.log, l.idx, Greatest(acks)) else LOG_SIZE - 1
  {
    hide CountGe;
    var a := acks[|acks| - 1];
    var before := SrtAcks(l, acks[..|acks| - 1]);
    var g := Greatest(acks);
    if |acks| > 1 {
      LogAfter(l, acks[..|acks| - 1]);
    }
    var masked := before.log[l.idx := a - 1];
    if a >= 0 {
      CountSame(masked, a, l.log[l.idx := g - 1], g);
    } else {
      CountUpdate(masked, l.idx, a, a);
      CountAll(masked[l.idx := a], a);
    }
  }

  /** Handling the ACKs in the order they came is the same as handling the
      greatest one alone, exactly when the last one is not negative (as a signed
      32-bit number) or nothing searched is older than the greatest. */
  lemma {:induction false} AcksFormAJoin(l: Link, acks: seq<int>)
    requires WellFormedLog(l) && acks != []
    ensures SrtAcks(l, acks) == SrtAcked(l, Greatest(acks))
       <==> acks[|acks| - 1] >= 0
            || forall i :: 0 <= i < LOG_SIZE && i != l.idx ==> l.log[i] >= Greatest(acks)
  {
    LogAfter(l, acks);
    InFlightAfter(l, acks);
    var g := Greatest(acks);
    var masked := l.log[l.idx := g - 1];
    CountUpdate(masked, l.idx, g, g);
    CountAll(masked[l.idx := g], g);
    assert forall i :: 0 <= i < LOG_SIZE && i != l.idx ==> masked[l.idx := g][i] == l.log[i];
    if acks[|acks| - 1] < 0 {
      if forall i :: 0 <= i < LOG_SIZE && i != l.idx ==> l.log[i] >= g {
        assert CountGe(masked[l.idx := g], g) == LOG_SIZE;
      }
    }
  }

  function AllSrtAcks(ls: seq<Link>, acks: seq<int>): (r: seq<Link>)
    requires AllValid(ls)
    ensures AllValid(r) && |r| == |ls|
  {
    if acks == [] then ls else SrtAck(AllSrtAcks(ls, acks[..|acks| - 1]), acks[|acks| - 1])
  }

  lemma {:induction false} AllIsEach(ls: seq<Link>, acks: seq<int>, i: nat)
    requires AllValid(ls) && i < |ls|
    ensures AllSrtAcks(ls, acks)[i] == SrtAcks(ls[i], acks)
  {
    if acks != [] {
      AllIsEach(ls, acks[..|acks| - 1], i);
    }
  }

  /** Whatever the order and the number of copies, two deliveries of SRT ACKs
      with the same greatest value leave every link in the same state. */
  lemma {:induction false} OrderAndCopiesIrrelevant(ls: seq<Link>, acks: seq<int>, acks': seq<int>)
    requires AllValid(ls) && forall i :: 0 <= i < |ls| ==> WellFormedLog(ls[i])
    requires acks != [] && acks' != [] && Greatest(acks) == Greatest(acks')
    requires forall k :: 0 <= k < |acks| ==> acks[k] >= 0
    requires forall k :: 0 <= k < |acks'| ==> acks'[k] >= 0
    ensures AllSrtAcks(ls, acks) == AllSrtAcks(ls, acks') == SrtAck(ls, Greatest(acks))
  {
    forall i | 0 <= i < |ls|
      ensures AllSrtAcks(ls, acks)[i] == AllSrtAcks(ls, acks')[i] == SrtAck(ls, Greatest(acks))[i]
    {
      AllIsEach(ls, acks, i);
      AllIsEach(ls, acks', i);
      AcksFormAJoin(ls[i], acks);
      AcksFormAJoin(ls[i], acks');
    }
  }
}
