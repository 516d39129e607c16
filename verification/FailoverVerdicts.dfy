/** What readings make the switcher fail over and come back, told on the readings
    alone. */
module FailoverVerdicts {
  import opened Options
  import opened Failover

  /** A receiver listens, port p plays, and data arrives at 1 kbit/s or more. */
  predicate Flows(r: Reading, p: nat) {
    r.listening && p in r.playing && p in r.rates && r.rates[p] >= 1.0
  }

  /** A receiver listens and port p plays what is left, but no data arrives. */
  predicate Dries(r: Reading, p: nat) {
    r.listening && p in r.playing && (p in r.rates ==> r.rates[p] < 1.0)
  }

  /** No receiver listens, or port p does not play. */
  predicate Stops(r: Reading, p: nat) {
    !r.listening || p !in r.playing
  }

  /** The search, if the reading sets one off, finds no other port than p. */
  predicate Stays(r: Reading, p: nat) {
    p in r.playing || (p in r.rates && r.rates[p] > 10.0) || r.found == 0 || r.found == p
  }

  /** Port p is the primary, with no dead time behind it. */
  predicate Locked(s: State, p: nat) {
    p > 0 && s.port == p && (p in s.deadMs ==> s.deadMs[p] == 0)
  }

  /** Live on a scene that may be failed over from. */
  predicate OnAir(c: Config, s: State) {
    !s.failedOver && s.original.None? && s.scene != c.failover && s.scene !in c.exempt
  }

  /** Failed over from a scene, with the recovery not begun. */
  predicate Away(c: Config, s: State, o: Scene) {
    && s.failedOver && s.recoveryTicks == 0 && s.original == Some(o) && o != c.failover
    && s.scene == c.failover && c.failover !in c.exempt
  }

  function Ticks(rs: seq<Reading>): seq<Event> {
    if rs == [] then [] else Ticks(rs[..|rs| - 1]) + [Tick(rs[|rs| - 1])]
  }

  lemma TickRun(c: Config, s: State, rs: seq<Reading>)
    requires rs != []
    ensures Run(c, s, Ticks(rs)) == OnTick(c, Run(c, s, Ticks(rs[..|rs| - 1])), rs[|rs| - 1])
  {
    RunExtends(c, s, Ticks(rs[..|rs| - 1]), Tick(rs[|rs| - 1]));
  }

  /** A stream that flows is never failed over from. */
  lemma {:induction false} FlowingStaysOnAir(c: Config, s: State, p: nat, rs: seq<Reading>)
    requires Locked(s, p) && OnAir(c, s)
    requires forall k :: 0 <= k < |rs| ==> Flows(rs[k], p)
    ensures var t := Run(c, s, Ticks(rs)); Locked(t, p) && OnAir(c, t) && t.scene == s.scene
  {
    if rs != [] {
      FlowingStaysOnAir(c, s, p, rs[..|rs| - 1]);
      TickRun(c, s, rs);
    }
  }

  /** After a failover, a stream that flows brings the scene back at exactly the
      tick the return delay names. */
  lemma {:induction false} FlowingComesBack(c: Config, s: State, p: nat, o: Scene, rs: seq<Reading>)
    requires Locked(s, p) && Away(c, s, o) && c.returnDelay > 0 && |rs| <= c.returnDelay
    requires forall k :: 0 <= k < |rs| ==> Flows(rs[k], p) && rs[k].haveOriginal
    ensures var t := Run(c, s, Ticks(rs));
            && Locked(t, p)
            && if |rs| < c.returnDelay then
                 t.scene == c.failover && t.failedOver && t.original == Some(o) && t.recoveryTicks == |rs|
               else t.scene == o && !t.failedOver && t.original.None?
  {
    if rs != [] {
      FlowingComesBack(c, s, p, o, rs[..|rs| - 1]);
      TickRun(c, s, rs);
    }
  }

  /** A stream that stops is failed over from at exactly the tick the delay names,
      at the first one for a delay of 0. */
  lemma {:induction false} StoppedGoesAway(c: Config, s: State, p: nat, rs: seq<Reading>)
    requires p > 0 && s.port == p && OnAir(c, s) && s.matchTicks == 0 && |rs| <= Needed(c)
    requires forall k :: 0 <= k < |rs| ==> Stops(rs[k], p) && Stays(rs[k], p) && rs[k].haveFailover
    ensures var t := Run(c, s, Ticks(rs));
            && t.port == p
            && if |rs| < Needed(c) then t.scene == s.scene && OnAir(c, t) && t.matchTicks == |rs|
               else t.scene == c.failover && t.failedOver && t.original == Some(s.scene)
  {
    if rs != [] {
      StoppedGoesAway(c, s, p, rs[..|rs| - 1]);
      TickRun(c, s, rs);
    }
  }

  /** A stream that plays on without data is failed over from one tick later: it
      takes two seconds without data before the ticks begin to count. */
  lemma {:induction false} DryGoesAway(c: Config, s: State, p: nat, rs: seq<Reading>)
    requires Locked(s, p) && OnAir(c, s) && s.matchTicks == 0 && |rs| <= 1 + Needed(c)
    requires forall k :: 0 <= k < |rs| ==> Dries(rs[k], p) && rs[k].haveFailover
    ensures var t := Run(c, s, Ticks(rs));
            && t.port == p && (rs != [] ==> p in t.deadMs && t.deadMs[p] == 1000 * |rs|)
            && if |rs| < 1 + Needed(c) then
                 t.scene == s.scene && OnAir(c, t) && t.matchTicks == (if |rs| <= 1 then 0 else |rs| - 1)
               else t.scene == c.failover && t.failedOver && t.original == Some(s.scene)
  {
    if rs != [] {
      DryGoesAway(c, s, p, rs[..|rs| - 1]);
      TickRun(c, s, rs);
    }
  }

  /** While a scene that is exempt is live, no reading ever changes the scene, and
      from the first judged tick on nothing is remembered. */
  lemma {:induction false} ExemptSceneStays(c: Config, s: State, rs: seq<Reading>)
    requires s.scene in c.exempt && s.port > 0
    ensures var t := Run(c, s, Ticks(rs));
            && t.scene == s.scene && t.port > 0
            && (rs != [] ==> !t.failedOver && t.original.None? && t.matchTicks == 0)
  {
    if rs != [] {
      ExemptSceneStays(c, s, rs[..|rs| - 1]);
      TickRun(c, s, rs);
    }
  }

  /** As long as nothing listens and no port was ever primary, nothing happens. */
  lemma {:induction false} NothingToWatch(c: Config, scene: Scene, rs: seq<Reading>)
    requires forall k :: 0 <= k < |rs| ==> !rs[k].listening
    ensures Run(c, Initial(scene), Ticks(rs)) == Initial(scene)
  {
    if rs != [] {
      NothingToWatch(c, scene, rs[..|rs| - 1]);
      TickRun(c, Initial(scene), rs);
    }
  }

  /** The primary port gives way to the one found exactly if it neither plays nor
      carries more than 10 kbit/s, and one was found. */
  lemma PrimaryGivesWay(c: Config, s: State, r: Reading)
    requires r.listening || s.port > 0
    ensures var quiet := s.port == 0
              || (s.port !in r.playing && (s.port in r.rates ==> r.rates[s.port] <= 10.0));
            OnTick(c, s, r).port == if quiet && r.found > 0 then r.found else s.port
  {
  }
}
