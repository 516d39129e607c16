/** The score window / (in flight + 1) makes the scheduler a highest-averages
    apportionment: the split of packets over links it produces is optimal. */
module Scheduler {
  import opened Links

  /** One data packet handed over by the SRT caller and sent successfully. */
  datatype Sent = Sent(t: int, sn: nat)

  function Sends(ls: seq<Link>, run: seq<Sent>): (r: seq<Link>)
    requires AllValid(ls)
    ensures AllValid(r) && |r| == |ls|
  {
    if run == [] then ls
    else
      var s := run[|run| - 1];
      SrtData(Sends(ls, run[..|run| - 1]), s.t, s.sn, true)
  }

  /** Throughout the run exactly the links in `live` are not timed out. */
  predicate LiveThroughout(ls: seq<Link>, run: seq<Sent>, live: set<nat>) {
    forall k, i :: 0 <= k < |run| && 0 <= i < |ls| ==> (i in live <==> !TimedOut(ls[i], run[k].t))
  }

  predicate Idle(ls: seq<Link>) {
    forall i :: 0 <= i < |ls| ==> ls[i].inFlight == 0
  }

  /** Each link keeps its window and its last reception time. */
  predicate SameLinks(ls: seq<Link>, ls': seq<Link>) {
    |ls| == |ls'| &&
    forall i :: 0 <= i < |ls| ==> ls[i].window == ls'[i].window && ls[i].lastRcvd == ls'[i].lastRcvd
  }

  /** Every loaded link i serves its packets at least as well as any live link j
      would serve one more. */
  predicate Fair(ls: seq<Link>, live: set<nat>)
    requires AllValid(ls)
  {
    forall i, j :: 0 <= i < |ls| && 0 <= j < |ls| && ls[i].inFlight > 0 ==>
      i in live && (j in live ==> ls[i].window / ls[i].inFlight >= Score(ls[j]))
  }

  lemma MulMonotone(a: int, b: int, c: nat)
    requires a <= b
    ensures a * c <= b * c
  {
  }

  /** A quotient is the largest multiplier that fits. */
  lemma {:induction false} DivLower(w: nat, d: nat, q: int)
    requires d > 0 && q * d <= w
    ensures q <= w / d
  {
    if q > w / d {
      MulMonotone(w / d + 1, q, d);
    }
  }

  lemma {:induction false} DivAntitone(w: nat, a: nat, b: nat)
    requires 0 < a <= b
    ensures w / b <= w / a
  {
    MulMonotone(a, b, w / b);
    DivLower(w, a, w / b);
  }

  lemma {:induction false} SendKeepsFair(ls: seq<Link>, s: Sent, live: set<nat>)
    requires AllValid(ls) && Fair(ls, live)
    requires forall i :: 0 <= i < |ls| ==> (i in live <==> !TimedOut(ls[i], s.t))
    ensures Fair(SrtData(ls, s.t, s.sn, true), live)
    ensures SameLinks(ls, SrtData(ls, s.t, s.sn, true))
  {
    var k := Select(ls, s.t);
    var after := SrtData(ls, s.t, s.sn, true);
    if k >= 0 {
      DivAntitone(ls[k].window, ls[k].inFlight + 1, ls[k].inFlight + 2);
      forall j | 0 <= j < |ls| && j in live
        ensures Score(after[j]) <= Score(ls[j]) <= Score(ls[k])
      {
      }
    }
  }

  /** The greedy choice is fair after every run from idle links. */
  lemma {:induction false} RunIsFair(ls: seq<Link>, run: seq<Sent>, live: set<nat>)
    requires AllValid(ls) && Idle(ls) && LiveThroughout(ls, run, live)
    ensures Fair(Sends(ls, run), live) && SameLinks(ls, Sends(ls, run))
  {
    if run != [] {
      RunIsFair(ls, run[..|run| - 1], live);
      SendKeepsFair(Sends(ls, run[..|run| - 1]), run[|run| - 1], live);
    }
  }

  function Sum(s: seq<nat>): nat {
    if s == [] then 0 else Sum(s[..|s| - 1]) + s[|s| - 1]
  }

  function Loads(ls: seq<Link>): (f: seq<nat>)
    requires AllValid(ls)
    ensures |f| == |ls|
  {
    seq(|ls|, i requires 0 <= i < |ls| => ls[i].inFlight)
  }

  /** Splitting `loads` over the links leaves every loaded link a share of at
      least m window units per packet. */
  predicate Guarantees(ls: seq<Link>, loads: seq<nat>, m: int) {
    |loads| == |ls| && forall i :: 0 <= i < |ls| && loads[i] > 0 ==> ls[i].window / loads[i] >= m
  }

  lemma {:induction false} SumPointwise(f: seq<nat>, g: seq<nat>)
    requires |f| == |g| && forall i :: 0 <= i < |f| ==> g[i] <= f[i]
    ensures Sum(g) <= Sum(f)
    ensures Sum(f) == Sum(g) ==> f == g
  {
    if f != [] {
      SumPointwise(f[..|f| - 1], g[..|g| - 1]);
    }
  }

  lemma {:induction false} SomeLinkOverloaded(f: seq<nat>, g: seq<nat>) returns (j: nat)
    requires |f| == |g| && Sum(f) == Sum(g) && f != g
    ensures j < |f| && g[j] > f[j]
  {
    if forall i :: 0 <= i < |f| ==> g[i] <= f[i] {
      SumPointwise(f, g);
    }
    j :| 0 <= j < |f| && g[j] > f[j];
  }

  /** Optimality: any other split of as many packets over the live links has no
      larger minimum share. */
  lemma {:induction false} ScheduleIsOptimal(ls: seq<Link>, run: seq<Sent>, live: set<nat>,
                                             other: seq<nat>, m: int)
    requires AllValid(ls) && Idle(ls) && LiveThroughout(ls, run, live)
    requires |other| == |ls| && Sum(other) == Sum(Loads(Sends(ls, run)))
    requires forall i :: 0 <= i < |ls| && other[i] > 0 ==> i in live
    requires Guarantees(ls, other, m)
    ensures Guarantees(ls, Loads(Sends(ls, run)), m)
  {
    RunIsFair(ls, run, live);
    FairIsOptimal(ls, Sends(ls, run), live, other, m);
  }

  lemma {:induction false} FairIsOptimal(ls: seq<Link>, end: seq<Link>, live: set<nat>,
                                         other: seq<nat>, m: int)
    requires AllValid(ls) && AllValid(end) && SameLinks(ls, end) && Fair(end, live)
    requires |other| == |ls| && Sum(other) == Sum(Loads(end))
    requires forall i :: 0 <= i < |ls| && other[i] > 0 ==> i in live
    requires Guarantees(ls, other, m)
    ensures Guarantees(ls, Loads(end), m)
  {
    var f := Loads(end);
    if f != other {
      var j := SomeLinkOverloaded(f, other);
      DivAntitone(ls[j].window, f[j] + 1, other[j]);
      forall i | 0 <= i < |ls| && f[i] > 0 ensures ls[i].window / f[i] >= m {
        assert end[i].window / end[i].inFlight >= Score(end[j]);
      }
    }
  }

  lemma {:induction false} SendAddsOne(ls: seq<Link>, s: Sent, i: nat)
    requires AllValid(ls) && i < |ls| && !TimedOut(ls[i], s.t)
    ensures Sum(Loads(SrtData(ls, s.t, s.sn, true))) == Sum(Loads(ls)) + 1
  {
    var k := Select(ls, s.t);
    SumBump(Loads(ls), k);
    assert Loads(SrtData(ls, s.t, s.sn, true)) == Loads(ls)[k := Loads(ls)[k] + 1];
  }

  /** While some link is live no packet is dropped: the loads add up to the run. */
  lemma {:induction false} EveryPacketPlaced(ls: seq<Link>, run: seq<Sent>, live: set<nat>, i: nat)
    requires AllValid(ls) && Idle(ls) && LiveThroughout(ls, run, live)
    requires i < |ls| && i in live
    ensures Sum(Loads(Sends(ls, run))) == |run|
  {
    if run == [] {
      SumZero(Loads(ls));
    } else {
      var prefix := run[..|run| - 1];
      var s := run[|run| - 1];
      assert !TimedOut(ls[i], s.t);
      assert LiveThroughout(ls, prefix, live);
      EveryPacketPlaced(ls, prefix, live, i);
      RunIsFair(ls, prefix, live);
      SendAddsOne(Sends(ls, prefix), s, i);
    }
  }

  lemma {:induction false} SumZero(s: seq<nat>)
    requires forall i :: 0 <= i < |s| ==> s[i] == 0
    ensures Sum(s) == 0
  {
    if s != [] {
      SumZero(s[..|s| - 1]);
    }
  }

  lemma {:induction false} SumBump(s: seq<nat>, k: nat)
    requires k < |s|
    ensures Sum(s[k := s[k] + 1]) == Sum(s) + 1
  {
    var last := |s| - 1;
    if k == last {
      assert s[k := s[k] + 1][..last] == s[..last];
    } else {
      assert s[k := s[k] + 1][..last] == s[..last][k := s[k] + 1];
      SumBump(s[..last], k);
    }
  }

  /** Links of equal window W stay within one packet of each other while the
      smaller load f satisfies (f + 1) * (f + 2) <= W. */
  lemma {:induction false} EqualWindowsShareEvenly(ls: seq<Link>, run: seq<Sent>, live: set<nat>,
                                                   i: nat, j: nat)
    requires AllValid(ls) && Idle(ls) && LiveThroughout(ls, run, live)
    requires i < |ls| && j < |ls| && i in live && j in live && ls[i].window == ls[j].window
    requires var f := Sends(ls, run)[j].inFlight; (f + 1) * (f + 2) <= ls[j].window
    ensures Sends(ls, run)[i].inFlight <= Sends(ls, run)[j].inFlight + 1
  {
    RunIsFair(ls, run, live);
    var end := Sends(ls, run);
    var w, f, f' := ls[j].window, end[j].inFlight, end[i].inFlight;
    if f' >= f + 2 {
      DivAntitone(w, f + 2, f');
      assert w / (f + 2) >= w / (f + 1);
      QuotientsDiffer(w, f);
    }
  }

  lemma {:induction false} QuotientsDiffer(w: nat, f: nat)
    requires (f + 1) * (f + 2) <= w
    ensures w / (f + 2) < w / (f + 1)
  {
    var q := w / (f + 2);
    DivLower(w, f + 2, f + 1);
    calc <= {
      (q + 1) * (f + 1);
      q * (f + 2) + (f + 1 - q);
      q * (f + 2);
      w;
    }
    DivLower(w, f + 1, q + 1);
  }
}
