/** The congestion window of every link stays within [1000, 60000]. */
module Windows {
  import opened Links
  import opened LinkRuns

  /** A link not heard from skips the upper clamp, so what bounds its window is
      how many zero entries its log still has for an ACK to hit. */
  predicate Bounded(l: Link) {
    && Valid(l)
    && WINDOW_FLOOR <= l.window <= WINDOW_CEILING
    && (forall i :: 0 <= i < |l.log| ==> l.log[i] >= CLEARED)
    && (l.lastRcvd == 0 ==>
          && (forall i :: 0 <= i < |l.log| ==> l.log[i] <= 0)
          && l.window + 29 * CountGe(l.log, 0) <= WINDOW_START + 29 * LOG_SIZE)
  }

  predicate AllBounded(ls: seq<Link>) {
    forall i :: 0 <= i < |ls| ==> Bounded(ls[i])
  }

  /** Events after the clock has passed 4 s whose SRTLA ACK numbers, read as
      signed 32-bit values, all come from `numbers`. */
  ghost predicate Admits(e: Event, numbers: iset<int>) {
    match e
    case Data(t, _, _) => t > CONN_TIMEOUT
    case Recv(_, ts, m) =>
      ts > CONN_TIMEOUT &&
      (m.SrtlaAckOf? ==> forall k :: 0 <= k < |m.acks| ==> m.acks[k] in numbers)
    case House(_, _) => true
  }

  ghost predicate AdmitsAll(es: seq<Event>, numbers: iset<int>) {
    forall k :: 0 <= k < |es| ==> Admits(es[k], numbers)
  }

  predicate WindowsInBounds(ls: seq<Link>) {
    forall i :: 0 <= i < |ls| ==> WINDOW_FLOOR <= ls[i].window <= WINDOW_CEILING
  }

  lemma {:induction false} ChargedBounded(l: Link, slot: nat)
    requires Bounded(l) && slot < LOG_SIZE
    ensures Bounded(Charged(l, slot))
  {
    CountUpdate(l.log, slot, CLEARED, 0);
  }

  lemma {:induction false} AckedBounded(l: Link, p: int, holds: bool)
    requires Bounded(l) && p != CLEARED && (holds ==> Find(l, p) >= 0)
    ensures Bounded(AckedAt(l, p, holds))
  {
    if holds {
      CountUpdate(l.log, Find(l, p), CLEARED, 0);
    }
  }

  lemma {:induction false} ClearingShrinks(s: seq<int>, idx: nat, ack: int)
    requires idx < |s|
    ensures CountGe(ClearedBelow(s, idx, ack), 0) <= CountGe(s, 0)
  {
    FewerCount(ClearedBelow(s, idx, ack), s);
  }

  lemma {:induction false} FewerCount(a: seq<int>, b: seq<int>)
    requires |a| == |b|
    requires forall i :: 0 <= i < |a| ==> a[i] >= 0 ==> b[i] >= 0
    ensures CountGe(a, 0) <= CountGe(b, 0)
  {
    if a != [] {
      FewerCount(a[..|a| - 1], b[..|b| - 1]);
    }
  }

  lemma {:induction false} SrtAckedBounded(l: Link, ack: int)
    requires Bounded(l)
    ensures Bounded(SrtAcked(l, ack))
  {
    ClearingShrinks(l.log, l.idx, ack);
  }

  lemma {:induction false} HousekeptBounded(l: Link, t: int)
    requires Bounded(l)
    ensures Bounded(Housekept(l, t))
  {
    if TimedOut(l, t) && l.lastRcvd > 0 {
      CountNone(Housekept(l, t).log, 0);
    }
  }

  lemma {:induction false} NaksBounded(ls: seq<Link>, lost: seq<int>)
    requires AllBounded(ls)
    ensures AllBounded(Naks(ls, lost))
  {
    if lost != [] {
      var prev := Naks(ls, lost[..|lost| - 1]);
      NaksBounded(ls, lost[..|lost| - 1]);
      var p := lost[|lost| - 1];
      var j := Holder(prev, p);
      if j >= 0 {
        ChargedBounded(prev[j], Find(prev[j], p));
      }
    }
  }

  lemma {:induction false} SrtlaAcksBounded(ls: seq<Link>, acks: seq<int>)
    requires AllBounded(ls) && CLEARED !in acks
    ensures AllBounded(SrtlaAcks(ls, acks))
  {
    if acks != [] {
      var prev := SrtlaAcks(ls, acks[..|acks| - 1]);
      SrtlaAcksBounded(ls, acks[..|acks| - 1]);
      var p := acks[|acks| - 1];
      var j := Holder(prev, p);
      forall i | 0 <= i < |prev| ensures Bounded(SrtlaAck(prev, p)[i]) {
        AckedBounded(prev[i], p, i == j);
      }
    }
  }

  lemma {:induction false} StepBounded(ls: seq<Link>, e: Event, numbers: iset<int>)
    requires AllBounded(ls) && Admits(e, numbers) && CLEARED !in numbers
    ensures AllBounded(Step(ls, e))
  {
    match e
    case Data(t, sn, sent) =>
    case House(t, usable) =>
      forall i | 0 <= i < |ls| ensures Bounded(Step(ls, e)[i]) {
        HousekeptBounded(ls[i], t);
      }
    case Recv(i, ts, m) =>
      if i < |ls| {
        var heard := ls[i := ls[i].(lastRcvd := ts)];
        match m
        case NakOf(lost) => NaksBounded(heard, lost);
        case SrtlaAckOf(acks) => SrtlaAcksBounded(heard, acks);
        case SrtAckOf(ack) =>
          forall k | 0 <= k < |ls| ensures Bounded(SrtAck(heard, ack)[k]) {
            SrtAckedBounded(heard[k], ack);
          }
        case Reg3 =>
        case Other =>
      }
  }

  lemma {:induction false} RunBounded(ls: seq<Link>, es: seq<Event>, numbers: iset<int>)
    requires AllBounded(ls) && AdmitsAll(es, numbers) && CLEARED !in numbers
    ensures AllBounded(Run(ls, es))
  {
    if es != [] {
      RunBounded(ls, es[..|es| - 1], numbers);
      StepBounded(Run(ls, es[..|es| - 1]), es[|es| - 1], numbers);
    }
  }

  // ---- why the number 0xFFFFFFFF has to be excluded ----

  /** Two packets heard on the second link: a cumulative ACK below every log
      entry makes 255 packets seem in flight on the silent first link, and an
      SRTLA ACK equal to a cleared entry is then found in its log. */
  function WildRound(): seq<Event> {
    [Recv(1, 5, SrtAckOf(CLEARED)), Recv(1, 5, SrtlaAckOf([CLEARED]))]
  }

  function WildRun(rounds: nat): (es: seq<Event>)
    ensures |es| == 1 + 2 * rounds
  {
    if rounds == 0 then [Recv(1, 5, SrtAckOf(1))] else WildRun(rounds - 1) + WildRound()
  }

  lemma {:induction false} RunAppend2(ls: seq<Link>, es: seq<Event>, a: Event, b: Event)
    requires AllValid(ls)
    ensures Run(ls, es + [a, b]) == Step(Step(Run(ls, es), a), b)
  {
    var whole := es + [a, b];
    assert whole[..|whole| - 1] == es + [a];
    assert (es + [a])[..|es|] == es;
  }

  predicate WildState(l: Link, rounds: nat) {
    && Valid(l) && l.lastRcvd == 0 && l.idx == 0
    && (forall i :: 1 <= i < LOG_SIZE ==> l.log[i] == CLEARED)
    && l.window == WINDOW_START + 29 * rounds
  }

  lemma {:induction false} WildRoundGrows(ls: seq<Link>, rounds: nat)
    requires AllValid(ls) && |ls| == 2 && WildState(ls[0], rounds) && rounds < 8000
    ensures WildState(Step(Step(ls, WildRound()[0]), WildRound()[1])[0], rounds + 1)
  {
    var a := Step(ls, WildRound()[0]);
    var l := a[0];
    assert l == SrtAcked(ls[0], CLEARED);
    CountAll(ls[0].log[0 := CLEARED - 1], CLEARED);
    CountUpdate(ls[0].log[0 := CLEARED - 1], 0, CLEARED, CLEARED);
    CountAll(ls[0].log[0 := CLEARED - 1][0 := CLEARED], CLEARED);
    assert l.inFlight == LOG_SIZE - 1;
    FindComplete(l, CLEARED);
    assert l.log[1] == CLEARED;
    assert Holder(a, CLEARED) == 0;
    var heard := a[1 := a[1].(lastRcvd := 5)];
    FindComplete(heard[0], CLEARED);
    assert Holder(heard, CLEARED) == 0;
    assert [CLEARED][..0] == [];
    assert SrtlaAcks(heard, [CLEARED]) == SrtlaAck(SrtlaAcks(heard, []), CLEARED);
  }

  lemma {:induction false} WildStart()
    ensures WildState(Run(Fresh(2), WildRun(0))[0], 0)
  {
    var e := Recv(1, 5, SrtAckOf(1));
    assert [e][..0] == [];
    assert Run(Fresh(2), [e]) == Step(Run(Fresh(2), []), e);
    assert Run(Fresh(2), []) == Fresh(2);
    assert Step(Fresh(2), e)[0] == SrtAcked(NewLink(), 1);
  }

  lemma {:induction false} WildRunGrows(rounds: nat)
    requires rounds <= 8000
    ensures WildState(Run(Fresh(2), WildRun(rounds))[0], rounds)
  {
    if rounds == 0 {
      WildStart();
    } else {
      var before := WildRun(rounds - 1);
      var a, b := WildRound()[0], WildRound()[1];
      WildRunGrows(rounds - 1);
      WildRoundGrows(Run(Fresh(2), before), rounds - 1);
      RunAppend2(Fresh(2), before, a, b);
      assert WildRun(rounds) == before + [a, b];
    }
  }

  /** Every window of every reachable state lies in [1000, 60000] exactly when
      no SRTLA ACK carries 0xFFFFFFFF, the number equal to a cleared entry:
      with it, 1380 rounds take a silent link past the ceiling. */
  lemma {:induction false} WindowsStayInBounds(numbers: iset<int>)
    ensures (forall n: nat, es: seq<Event> :: AdmitsAll(es, numbers) ==>
               WindowsInBounds(Run(Fresh(n), es)))
       <==> CLEARED !in numbers
  {
    if CLEARED in numbers {
      WildRunGrows(1380);
      WildRunAdmitted(1380, numbers);
      assert !WindowsInBounds(Run(Fresh(2), WildRun(1380)));
    } else {
      forall n: nat, es: seq<Event> | AdmitsAll(es, numbers)
        ensures WindowsInBounds(Run(Fresh(n), es))
      {
        RunBounded(Fresh(n), es, numbers);
      }
    }
  }

  lemma {:induction false} WildRunAdmitted(rounds: nat, numbers: iset<int>)
    requires CLEARED in numbers
    ensures AdmitsAll(WildRun(rounds), numbers)
  {
    if rounds > 0 {
      WildRunAdmitted(rounds - 1, numbers);
    }
  }
}
