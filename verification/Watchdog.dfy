/** The watchdog that reloads a receiver's media player when its audio has been
    starved for a while, one source at a time, under a clock in nanoseconds. */
module Watchdog {

  const COOLDOWN: nat := 10_000_000_000
  const STARVATION: nat := 6_000_000_000
  const AUDIO_RECENT: nat := 2_000_000_000
  const STARVED_HZ := 30000.0
  const MAX_ATTEMPTS: nat := 2

  /** What the watchdog knows of one source; a time of 0 means not set. */
  datatype Source = Source(running: bool, stopping: bool, media: bool, connectedSince: nat, lastRecovery: nat,
                           attempts: nat, starvedSince: nat, lastAudio: nat, hz: real)

  datatype Measured = NotYet | Hz(value: real)

  /** What happens to a source.  `done` is when a reload decided by the poll is
      over, `made` whether a reload got a new player. */
  datatype Event =
    | Poll(now: nat, groups: bool, done: nat, made: bool)
    | Audio(now: nat, hz: Measured)
    | Reload(now: nat, made: bool)
    | Update(now: nat, thread: bool, media: bool, started: bool, made: bool)
    | Stop(now: nat)

  const CREATED := Source(false, false, false, 0, 0, 0, 0, 0, 0.0)

  /** Difference of two unsigned 64-bit times. */
  function Since(now: nat, t: nat): int {
    if t <= now then now - t else now - t + 0x1_0000_0000_0000_0000
  }

  // ---- one poll ----

  predicate Starved(s: Source, now: nat) {
    s.lastAudio > 0 && Since(now, s.lastAudio) < AUDIO_RECENT && 0.0 < s.hz < STARVED_HZ
  }

  function Connected(s: Source, now: nat): Source {
    if s.connectedSince == 0 then s.(connectedSince := now, lastRecovery := now, attempts := 0) else s
  }

  predicate Cooling(s: Source, now: nat) {
    s.lastRecovery > 0 && Since(now, s.lastRecovery) < COOLDOWN
  }

  /** Starvation has lasted, so that a reload is due once the cooldown is over. */
  predicate Hung(s: Source, now: nat) {
    Starved(s, now) && s.starvedSince != 0 && Since(now, s.starvedSince) >= STARVATION
  }

  predicate Decides(s: Source, now: nat, groups: bool) {
    && s.running && groups
    && Hung(s, now) && !Cooling(Connected(s, now), now)
    && Connected(s, now).attempts < MAX_ATTEMPTS
  }

  function Watched(s: Source, now: nat): Source {
    var c := Connected(s, now);
    if Decides(s, now, true) then c.(attempts := c.attempts + 1, lastRecovery := now, starvedSince := 0)
    else if !Starved(s, now) then c.(starvedSince := 0)
    else if s.starvedSince == 0 then c.(starvedSince := now)
    else c
  }

  function Disconnected(s: Source): Source {
    s.(connectedSince := 0, lastAudio := 0, starvedSince := 0, hz := 0.0, lastRecovery := 0, attempts := 0)
  }

  /** Closes the player, if there is one, and opens a new one. */
  function Reloaded(s: Source, now: nat, made: bool): Source {
    var closed := if s.media then s.(lastAudio := 0, hz := 0.0) else s;
    closed.(media := made, starvedSince := 0, lastRecovery := now)
  }

  function OnPoll(s: Source, now: nat, groups: bool, done: nat, made: bool): Source {
    if !s.running then s
    else if !groups then Disconnected(s)
    else if Decides(s, now, groups) then Reloaded(Watched(s, now), done, made)
    else Watched(s, now)
  }

  function OnAudio(s: Source, now: nat, hz: Measured): Source {
    if !s.media || s.stopping then s
    else s.(lastAudio := now, attempts := 0, hz := if hz.Hz? then hz.value else s.hz)
  }

  function OnUpdate(s: Source, now: nat, thread: bool, media: bool, started: bool, made: bool): Source {
    var needed := thread || !s.running || media || !s.media;
    if !needed then s
    else
      var r := if media || !s.media then Reloaded(s, now, made) else s;
      r.(stopping := false, running := started)
  }

  function OnStop(s: Source): Source {
    Source(false, true, false, 0, 0, 0, 0, 0, if s.media then 0.0 else s.hz)
  }

  function Next(s: Source, e: Event): Source {
    match e
    case Poll(now, groups, done, made) => OnPoll(s, now, groups, done, made)
    case Audio(now, hz) => OnAudio(s, now, hz)
    case Reload(now, made) => Reloaded(s, now, made)
    case Update(now, thread, media, started, made) => OnUpdate(s, now, thread, media, started, made)
    case Stop(_) => OnStop(s)
  }

  function Run(es: seq<Event>): Source {
    if es == [] then CREATED else Next(Run(es[..|es| - 1]), es[|es| - 1])
  }

  function End(e: Event): nat {
    if e.Poll? then e.done else e.now
  }

  function Clock(es: seq<Event>): nat {
    if es == [] then 0 else End(es[|es| - 1])
  }

  /** The clock has started and never runs backwards. */
  predicate Timed(es: seq<Event>) {
    es == [] ||
    var p, e := es[..|es| - 1], es[|es| - 1];
    Timed(p) && 0 < e.now && Clock(p) <= e.now <= End(e)
  }

  /** Event k is a poll that reloads the player. */
  predicate AutoReload(es: seq<Event>, k: nat)
    requires k < |es|
  {
    es[k].Poll? && Decides(Run(es[..k]), es[k].now, es[k].groups)
  }

  // ---- invariant ----

  /** No time lies ahead; a connected source has a recovery time; audio heard
      means a player and no attempt since, and there is never more than one
      attempt. */
  predicate Sound(s: Source, clock: nat) {
    && s.lastRecovery <= clock && s.starvedSince <= clock && s.lastAudio <= clock && s.connectedSince <= clock
    && (s.connectedSince > 0 ==> s.lastRecovery > 0)
    && (s.lastAudio > 0 ==> s.media && s.attempts == 0)
    && s.attempts <= 1
  }

  lemma StepKeepsSound(s: Source, e: Event, clock: nat)
    requires Sound(s, clock) && 0 < e.now && clock <= e.now <= End(e)
    ensures Sound(Next(s, e), End(e))
  {
  }

  lemma {:induction false} RunIsSound(es: seq<Event>)
    requires Timed(es)
    ensures Sound(Run(es), Clock(es))
  {
    if es != [] {
      var p := es[..|es| - 1];
      RunIsSound(p);
      StepKeepsSound(Run(p), es[|es| - 1], Clock(p));
    }
  }

  lemma {:induction false} TimedPrefix(es: seq<Event>, k: nat)
    requires Timed(es) && k <= |es|
    ensures Timed(es[..k]) && Clock(es[..k]) <= Clock(es)
    ensures k < |es| ==> 0 < es[k].now && Clock(es[..k]) <= es[k].now <= End(es[k]) <= Clock(es)
    decreases |es|
  {
    if k == |es| {
      assert es[..k] == es;
    } else {
      var p := es[..|es| - 1];
      TimedPrefix(p, k);
      assert p[..k] == es[..k];
    }
  }

  // ---- reloads are far apart ----

  /** Nothing since time t could have ended the cooldown that began at t. */
  predicate Held(s: Source, t: nat) {
    s.connectedSince == 0 || s.lastRecovery >= t
  }

  lemma StepHolds(s: Source, e: Event, t: nat)
    requires Held(s, t) && t <= e.now <= End(e)
    ensures Held(Next(s, e), t)
  {
  }

  lemma LaterClock(es: seq<Event>, j: nat, k: nat)
    requires Timed(es) && j < k <= |es|
    ensures es[j].now <= Clock(es[..k])
  {
    hide Timed;
    TimedPrefix(es, k);
    TimedPrefix(es[..k], j);
    assert es[..k][j] == es[j];
  }

  lemma {:induction false} HeldBetween(es: seq<Event>, j: nat, k: nat)
    requires Timed(es) && j < k <= |es| && AutoReload(es, j)
    ensures Held(Run(es[..k]), es[j].now)
  {
    hide Timed;
    TimedPrefix(es, j);
    TimedPrefix(es, k);
    assert es[..k][..k - 1] == es[..k - 1];
    if k > j + 1 {
      HeldBetween(es, j, k - 1);
      TimedPrefix(es, k - 1);
      LaterClock(es, j, k - 1);
      StepHolds(Run(es[..k - 1]), es[k - 1], es[j].now);
    }
  }

  /** Two automatic reloads of a source are at least the cooldown apart, whatever
      connects, disconnects, stops and manual reloads lie between them. */
  lemma ReloadsFarApart(es: seq<Event>, j: nat, k: nat)
    requires Timed(es) && j < k < |es| && AutoReload(es, j) && AutoReload(es, k)
    ensures es[k].now >= es[j].now + COOLDOWN
  {
    HeldBetween(es, j, k);
    TimedPrefix(es, j);
    TimedPrefix(es, k);
    RunIsSound(es[..k]);
  }

  // ---- reloads follow starvation ----

  /** A poll that looks at the source. */
  predicate Evaluated(es: seq<Event>, i: nat)
    requires i < |es|
  {
    es[i].Poll? && Run(es[..i]).running
  }

  /** The event closes the player or puts a new one in its place. */
  predicate Replaces(s: Source, e: Event) {
    match e
    case Poll(now, groups, _, _) => Decides(s, now, groups)
    case Audio(_, _) => false
    case Reload(_, _) => true
    case Update(_, _, media, _, _) => media || !s.media
    case Stop(_) => true
  }

  /** From poll j on, every poll that looked at the source saw it connected and
      starved, and its player was the same all along. */
  ghost predicate StarvedFrom(es: seq<Event>, j: nat)
    requires j < |es|
  {
    && Evaluated(es, j)
    && (forall i :: j <= i < |es| && Evaluated(es, i) ==> es[i].groups && Starved(Run(es[..i]), es[i].now))
    && (forall i :: j <= i < |es| ==> !Replaces(Run(es[..i]), es[i]))
  }

  lemma StarvedStep(s: Source, e: Event, clock: nat)
    requires Sound(s, clock) && 0 < e.now && clock <= e.now <= End(e)
    ensures Next(s, e).starvedSince > 0 ==>
      && !Replaces(s, e)
      && (e.Poll? && s.running ==> e.groups && Starved(s, e.now))
      && (s.starvedSince > 0 ==> Next(s, e).starvedSince == s.starvedSince)
      && (s.starvedSince == 0 ==> e.Poll? && s.running && Next(s, e).starvedSince == e.now)
  {
  }

  lemma StarvedGrows(p: seq<Event>, e: Event, j: nat)
    requires j < |p| && StarvedFrom(p, j)
    requires !Replaces(Run(p), e)
    requires e.Poll? && Run(p).running ==> e.groups && Starved(Run(p), e.now)
    ensures StarvedFrom(p + [e], j) && (p + [e])[j] == p[j]
  {
    var es := p + [e];
    assert es[..|p|] == p;
    forall i | 0 <= i < |p| ensures es[i] == p[i] && es[..i] == p[..i] {
    }
  }

  lemma {:induction false} StarvedSinceTraced(es: seq<Event>)
    requires Timed(es) && Run(es).starvedSince > 0
    ensures exists j :: 0 <= j < |es| && StarvedFrom(es, j) && es[j].now == Run(es).starvedSince
  {
    var p, e := es[..|es| - 1], es[|es| - 1];
    assert es == p + [e];
    RunIsSound(p);
    StarvedStep(Run(p), e, Clock(p));
    if Run(p).starvedSince > 0 {
      StarvedSinceTraced(p);
      var j :| 0 <= j < |p| && StarvedFrom(p, j) && p[j].now == Run(p).starvedSince;
      StarvedGrows(p, e, j);
    } else {
      assert es[..|p|] == p;
      assert StarvedFrom(es, |p|);
    }
  }

  /** An automatic reload closes at least six seconds in which every poll that
      looked at the source saw it connected and starved, with one player. */
  lemma ReloadFollowsStarvation(es: seq<Event>, k: nat)
    requires Timed(es) && k < |es| && AutoReload(es, k)
    ensures Starved(Run(es[..k]), es[k].now) && es[k].groups
    ensures exists j :: 0 <= j < k && StarvedFrom(es[..k], j) && es[j].now + STARVATION <= es[k].now
  {
    TimedPrefix(es, k);
    RunIsSound(es[..k]);
    StarvedSinceTraced(es[..k]);
    var j :| 0 <= j < k && StarvedFrom(es[..k], j) && es[..k][j].now == Run(es[..k]).starvedSince;
    assert es[j] == es[..k][j];
  }

  // ---- reloads follow starved audio ----

  /** The callback that measured rate v, the last one to measure any. */
  ghost predicate MeasuredAt(es: seq<Event>, i: nat, v: real)
    requires i < |es|
  {
    && es[i].Audio? && es[i].hz == Hz(v)
    && forall m :: i < m < |es| && es[m].Audio? ==> es[m].hz.NotYet?
  }

  ghost predicate HeardAt(es: seq<Event>, j: nat, t: nat)
    requires j < |es|
  {
    es[j].Audio? && es[j].now == t
  }

  lemma AudioStep(s: Source, e: Event)
    requires s.hz != 0.0 ==> s.media && !s.stopping
    ensures var u := Next(s, e);
            && (u.hz != 0.0 ==> u.media && !u.stopping)
            && (u.hz != 0.0 && !(e.Audio? && e.hz == Hz(u.hz)) ==>
                  u.hz == s.hz && (e.Audio? ==> e.hz.NotYet?))
            && (u.lastAudio > 0 && !(e.Audio? && e.now == u.lastAudio) ==> u.lastAudio == s.lastAudio)
  {
  }

  lemma TracesGrow(p: seq<Event>, e: Event)
    ensures var es := p + [e];
            forall i, v :: 0 <= i < |p| && MeasuredAt(p, i, v) && (e.Audio? ==> e.hz.NotYet?) ==> MeasuredAt(es, i, v)
  {
  }

  lemma {:induction false} RunTracesRate(es: seq<Event>)
    ensures var s := Run(es);
            s.hz != 0.0 ==> s.media && !s.stopping && exists i :: 0 <= i < |es| && MeasuredAt(es, i, s.hz)
  {
    hide Next, MeasuredAt;
    if es != [] {
      var p, e := es[..|es| - 1], es[|es| - 1];
      assert es == p + [e];
      RunTracesRate(p);
      AudioStep(Run(p), e);
      TracesGrow(p, e);
      var s, u := Run(p), Run(es);
      if u.hz != 0.0 {
        if e.Audio? && e.hz == Hz(u.hz) {
          LastMeasures(p, e);
        } else {
          var i :| 0 <= i < |p| && MeasuredAt(p, i, s.hz);
          assert MeasuredAt(es, i, u.hz);
        }
      }
    }
  }

  lemma LastMeasures(p: seq<Event>, e: Event)
    requires e.Audio? && e.hz.Hz?
    ensures MeasuredAt(p + [e], |p|, e.hz.value)
  {
  }

  lemma {:induction false} RunTracesTime(es: seq<Event>)
    ensures var s := Run(es); s.lastAudio > 0 ==> exists j :: 0 <= j < |es| && HeardAt(es, j, s.lastAudio)
  {
    hide Next;
    if es != [] {
      var p, e := es[..|es| - 1], es[|es| - 1];
      assert es == p + [e];
      RunTracesTime(p);
      RunTracesRate(p);
      AudioStep(Run(p), e);
      var s, u := Run(p), Run(es);
      if u.lastAudio > 0 {
        if e.Audio? && e.now == u.lastAudio {
          assert HeardAt(es, |p|, u.lastAudio);
        } else {
          var j :| 0 <= j < |p| && HeardAt(p, j, s.lastAudio);
          assert HeardAt(es, j, u.lastAudio);
        }
      }
    }
  }

  /** An automatic reload needs an audio callback less than two seconds old, and
      the last rate any callback measured must lie strictly between 0 and 30 kHz. */
  lemma ReloadNeedsStarvedAudio(es: seq<Event>, k: nat)
    requires Timed(es) && k < |es| && AutoReload(es, k)
    ensures exists j :: 0 <= j < k && es[j].Audio? && es[k].now < es[j].now + 2_000_000_000
    ensures exists i, v :: 0 <= i < k && 0.0 < v < 30000.0 && MeasuredAt(es[..k], i, v)
  {
    hide Run;
    TimedPrefix(es, k);
    RunIsSound(es[..k]);
    RunTracesRate(es[..k]);
    RunTracesTime(es[..k]);
    var s := Run(es[..k]);
    var j :| 0 <= j < k && HeardAt(es[..k], j, s.lastAudio);
    assert es[j] == es[..k][j];
    var i :| 0 <= i < k && MeasuredAt(es[..k], i, s.hz);
  }

  // ---- reloads are prompt ----

  lemma StarvedKeeps(s: Source, e: Event, clock: nat)
    requires Sound(s, clock) && 0 < e.now && clock <= e.now <= End(e)
    requires s.starvedSince > 0 && !Replaces(s, e)
    requires e.Poll? && s.running ==> e.groups && Starved(s, e.now)
    ensures Next(s, e).starvedSince == s.starvedSince
  {
  }

  lemma StarvedBegins(s: Source, e: Event, clock: nat)
    requires Sound(s, clock) && 0 < e.now && clock <= e.now <= End(e)
    requires e.Poll? && s.running && e.groups && Starved(s, e.now) && !Decides(s, e.now, e.groups)
    ensures 0 < Next(s, e).starvedSince <= e.now
  {
  }

  lemma {:induction false} StarvationCounts(es: seq<Event>, j: nat)
    requires Timed(es) && j < |es| && StarvedFrom(es, j)
    ensures 0 < Run(es).starvedSince <= es[j].now
  {
    hide Next, Timed, Sound, Starved, Replaces;
    var p, e := es[..|es| - 1], es[|es| - 1];
    TimedPrefix(es, |es| - 1);
    RunIsSound(p);
    assert Evaluated(es, |es| - 1) ==> e.groups && Starved(Run(p), e.now);
    assert !Replaces(Run(p), e);
    if j < |p| {
      StarvedBefore(es, j);
      StarvationCounts(p, j);
      StarvedKeeps(Run(p), e, Clock(p));
    } else {
      NoDecision(Run(p), e);
      StarvedBegins(Run(p), e, Clock(p));
    }
  }

  lemma NoDecision(s: Source, e: Event)
    requires !Replaces(s, e) && e.Poll?
    ensures !Decides(s, e.now, e.groups)
  {
  }

  lemma StarvedBefore(es: seq<Event>, j: nat)
    requires j < |es| - 1 && StarvedFrom(es, j)
    ensures StarvedFrom(es[..|es| - 1], j)
  {
    hide Run, Replaces, Starved;
    var p := es[..|es| - 1];
    forall i | 0 <= i < |p| ensures p[i] == es[i] && p[..i] == es[..i] {
    }
    assert Evaluated(es, j);
    forall i | j <= i < |p| && Evaluated(p, i) ensures p[i].groups && Starved(Run(p[..i]), p[i].now) {
      assert Evaluated(es, i);
    }
  }

  /** A poll that finds the source connected and starved reloads it as soon as it
      was so at every poll for six seconds, with one player, and the last recovery
      or connect is ten seconds old. */
  lemma ReloadIsDue(es: seq<Event>, k: nat, j: nat)
    requires Timed(es) && j < k < |es| && StarvedFrom(es[..k], j)
    requires Evaluated(es, k) && es[k].groups && Starved(Run(es[..k]), es[k].now)
    requires es[j].now + 6_000_000_000 <= es[k].now
    requires var s := Run(es[..k]); s.connectedSince > 0 && s.lastRecovery + 10_000_000_000 <= es[k].now
    ensures AutoReload(es, k)
  {
    TimedPrefix(es, k);
    RunIsSound(es[..k]);
    StarvationCounts(es[..k], j);
    assert es[..k][j] == es[j];
  }

  // ---- the attempt limit ----

  /** The limit of two attempts never stops a reload: audio is needed for
      starvation, and every audio callback resets the attempts. */
  lemma LimitNeverBinds(es: seq<Event>, now: nat, groups: bool)
    requires Timed(es)
    ensures var s := Run(es);
            && s.attempts <= 1
            && (Decides(s, now, groups) <==>
                  s.running && groups && Hung(s, now) && !Cooling(Connected(s, now), now))
  {
    RunIsSound(es);
  }

  /** Eleven seconds of starved audio, from a reload at time t on. */
  function Cycle(t: nat): seq<Event> {
    [Audio(t + 5_000_000_000, Hz(20000.0)), Poll(t + 5_000_000_000, true, t + 5_000_000_000, true),
     Audio(t + 11_000_000_000, Hz(20000.0)), Poll(t + 11_000_000_000, true, t + 11_000_000_000, true)]
  }

  /** A source that is started, connects, and is starved for n cycles. */
  function Cycles(n: nat): seq<Event> {
    if n == 0 then [Update(1, true, true, true, true), Poll(1, true, 1, true)]
    else Cycles(n - 1) + Cycle(1 + 11_000_000_000 * (n - 1))
  }

  function Reloads(es: seq<Event>): nat {
    if es == [] then 0 else Reloads(es[..|es| - 1]) + if AutoReload(es, |es| - 1) then 1 else 0
  }

  /** One more event on a run. */
  lemma OneMore(p: seq<Event>, e: Event)
    ensures Run(p + [e]) == Next(Run(p), e)
    ensures Timed(p + [e]) <==> Timed(p) && 0 < e.now && Clock(p) <= e.now <= End(e)
    ensures Clock(p + [e]) == End(e)
    ensures Reloads(p + [e]) == Reloads(p) + if e.Poll? && Decides(Run(p), e.now, e.groups) then 1 else 0
  {
    var es := p + [e];
    assert es[..|es| - 1] == p && es[|es| - 1] == e;
  }

  predicate JustReloaded(s: Source, t: nat) {
    && s.running && !s.stopping && s.media
    && 0 < s.connectedSince && s.lastRecovery == t && s.starvedSince == 0
  }

  /** Every poll sees the source connected, and nobody stops or reloads it, or
      changes its settings once started. */
  predicate Uninterrupted(es: seq<Event>) {
    forall i :: 0 <= i < |es| ==>
      !es[i].Stop? && !es[i].Reload? && (es[i].Update? ==> i == 0) && (es[i].Poll? ==> es[i].groups)
  }

  lemma CycleReloads(p: seq<Event>, t: nat)
    requires Timed(p) && Clock(p) == t && t > 0
    requires JustReloaded(Run(p), t)
    ensures var es := p + Cycle(t);
            && Timed(es) && Clock(es) == t + 11_000_000_000 && Reloads(es) == Reloads(p) + 1
            && JustReloaded(Run(es), Clock(es))
  {
    hide Timed, Run, Reloads;
    var c := Cycle(t);
    var p1 := p + [c[0]];
    var p2 := p1 + [c[1]];
    var p3 := p2 + [c[2]];
    OneMore(p, c[0]);
    OneMore(p1, c[1]);
    OneMore(p2, c[2]);
    OneMore(p3, c[3]);
    assert p + c == p3 + [c[3]];
  }

  lemma StartedRun()
    ensures var es := Cycles(0);
            Timed(es) && Clock(es) == 1 && Reloads(es) == 0 && JustReloaded(Run(es), 1)
  {
    var u, q := Update(1, true, true, true, true), Poll(1, true, 1, true);
    OneMore([], u);
    OneMore([u], q);
    assert [] + [u] == [u] && [u] + [q] == Cycles(0);
  }

  lemma {:induction false} CyclesRun(n: nat)
    ensures var es := Cycles(n);
            && Timed(es) && Clock(es) == 1 + 11_000_000_000 * n && Reloads(es) == n
            && JustReloaded(Run(es), Clock(es))
    ensures Uninterrupted(Cycles(n))
  {
    hide Timed, Run, Reloads, Clock, JustReloaded;
    if n == 0 {
      StartedRun();
      assert Clock(Cycles(0)) == 1;
    } else {
      CyclesRun(n - 1);
      CycleReloads(Cycles(n - 1), 1 + 11_000_000_000 * (n - 1));
    }
  }

  /** So reloads are not limited to two on a stream that never recovers: for
      every n there is an uninterrupted connection reloaded n times. */
  lemma ReloadsWithoutLimit(n: nat)
    ensures exists es: seq<Event> :: Timed(es) && Reloads(es) == n
                         && Uninterrupted(es)
  {
    CyclesRun(n);
  }
}
