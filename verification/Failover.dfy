/** The automatic scene failover: one tick a second judges the primary stream,
    and every scene change is reported back to the switcher. */
module Failover {
  import opened Options

  type Scene = s: string | s != "" witness "Scene"

  /** Settings after their defaults: a negative or unset delay is 4 ticks, a
      return delay that is not positive or unset is 5. */
  datatype Config = Config(failover: Scene, exempt: set<Scene>, delay: nat, returnDelay: nat)

  datatype Setting = Unset | Set(value: int)

  function DelayOf(s: Setting): nat {
    if s.Unset? || s.value < 0 then 4 else s.value
  }

  function ReturnDelayOf(s: Setting): (d: nat)
    ensures d > 0
  {
    if s.Unset? || s.value <= 0 then 5 else s.value
  }

  /** The live scene and what the switcher remembers. */
  datatype State = State(scene: Scene, port: nat, failedOver: bool, matchTicks: nat, recoveryTicks: nat,
                         original: Option<Scene>, deadMs: map<nat, nat>)

  /** What one tick reads: whether a receiver listens, which ports play media,
      the rates by port, the port a search for a new primary would return (0 if
      none), and whether the failover scene and the scene to restore exist. */
  datatype Reading = Reading(listening: bool, playing: set<nat>, rates: map<nat, real>, found: nat,
                             haveFailover: bool, haveOriginal: bool)

  datatype Event = Tick(r: Reading) | SceneChosen(scene: Scene)

  function Initial(scene: Scene): State {
    State(scene, 0, false, 0, 0, None, map[])
  }

  // ---- one tick ----

  function Rate(r: Reading, port: nat): real {
    if port in r.rates then r.rates[port] else 0.0
  }

  /** The primary port after the tick's search. */
  function Primary(s: State, r: Reading): nat {
    if s.port > 0 && (s.port in r.playing || Rate(r, s.port) > 10.0) then s.port
    else if r.found > 0 then r.found else s.port
  }

  function Dead(s: State, port: nat): nat {
    if port in s.deadMs then s.deadMs[port] else 0
  }

  /** The dead time of the primary port, counted on by this tick. */
  function DeadNow(s: State, r: Reading): nat {
    if Rate(r, Primary(s, r)) < 1.0 then Dead(s, Primary(s, r)) + 1000 else 0
  }

  predicate Healthy(s: State, r: Reading) {
    Primary(s, r) in r.playing && DeadNow(s, r) < 2000 && r.listening
  }

  /** Whether the tick judges the stream at all. */
  predicate Judges(c: Config, s: State, r: Reading) {
    Primary(s, r) > 0 && (r.listening || s.port > 0) && s.scene !in c.exempt
  }

  /** The scene-changed handler. */
  function Changed(c: Config, s: State): State {
    if s.scene != c.failover then s.(original := None, failedOver := false) else s
  }

  function GoTo(c: Config, s: State, scene: Scene): State {
    Changed(c, s.(scene := scene))
  }

  function FailOver(c: Config, s: State, r: Reading): State {
    if s.scene == c.failover then s.(failedOver := true)
    else
      var saved := if s.original.None? then s.(original := Some(s.scene)) else s;
      (if r.haveFailover then GoTo(c, saved, c.failover) else saved).(failedOver := true)
  }

  function Restore(c: Config, s: State, r: Reading): State {
    var back :=
      if s.original.Some? && r.haveOriginal then GoTo(c, s.(original := None), s.original.value)
      else s.(original := None);
    back.(failedOver := false, recoveryTicks := 0)
  }

  function Judge(c: Config, s: State, r: Reading): State {
    var p := Primary(s, r);
    var t := s.(port := p, deadMs := s.deadMs[p := DeadNow(s, r)]);
    if !Healthy(s, r) then
      var u := t.(recoveryTicks := 0);
      if u.failedOver then u
      else
        var v := u.(matchTicks := u.matchTicks + 1);
        if v.matchTicks >= c.delay then FailOver(c, v, r) else v
    else
      var u := t.(matchTicks := 0);
      if !u.failedOver then u.(recoveryTicks := 0)
      else
        var v := u.(recoveryTicks := u.recoveryTicks + 1);
        if v.recoveryTicks >= c.returnDelay then Restore(c, v, r) else v
  }

  function OnTick(c: Config, s: State, r: Reading): State {
    if !r.listening && s.port == 0 then s.(failedOver := false, matchTicks := 0)
    else
      var p := Primary(s, r);
      if p == 0 then s
      else if s.scene in c.exempt then
        s.(port := p, failedOver := false, matchTicks := 0, recoveryTicks := 0, original := None)
      else Judge(c, s, r)
  }

  function Next(c: Config, s: State, e: Event): State {
    match e
    case Tick(r) => OnTick(c, s, r)
    case SceneChosen(scene) => GoTo(c, s, scene)
  }

  function Run(c: Config, s: State, es: seq<Event>): State {
    if es == [] then s else Next(c, Run(c, s, es[..|es| - 1]), es[|es| - 1])
  }

  /** The state before event k of a run. */
  function At(c: Config, s: State, es: seq<Event>, k: nat): State
    requires k <= |es|
  {
    Run(c, s, es[..k])
  }

  // ---- the right scene ----

  /** A tick that fails over while `scene` is live. */
  predicate FailsOverFrom(c: Config, s: State, e: Event, scene: Scene) {
    e.Tick? && !s.failedOver && s.scene == scene != c.failover && Next(c, s, e).failedOver
  }

  /** What is remembered as the original scene, traced to the tick that failed
      over from it: no scene but that one and the failover scene was live since,
      and only the failover scene if it existed at that tick. */
  ghost predicate TracedTo(c: Config, s: State, es: seq<Event>, o: Scene, j: nat)
    requires j < |es|
  {
    && FailsOverFrom(c, At(c, s, es, j), es[j], o)
    && (forall i :: j < i <= |es| ==>
          var live := At(c, s, es, i).scene;
          live == c.failover || (live == o && !es[j].r.haveFailover))
  }

  ghost predicate Sound(c: Config, s: State, es: seq<Event>) {
    var t := Run(c, s, es);
    && (t.original.Some? ==> t.failedOver && exists j :: 0 <= j < |es| && TracedTo(c, s, es, t.original.value, j))
    && (t.port == 0 ==> t.original.None? && !t.failedOver && t.matchTicks == 0)
  }

  lemma AtExtends(c: Config, s: State, es: seq<Event>, e: Event, k: nat)
    requires k <= |es|
    ensures At(c, s, es + [e], k) == At(c, s, es, k)
  {
    assert (es + [e])[..k] == es[..k];
  }

  lemma RunExtends(c: Config, s: State, es: seq<Event>, e: Event)
    ensures Run(c, s, es + [e]) == Next(c, Run(c, s, es), e)
  {
    assert (es + [e])[..|es|] == es;
  }

  /** A step keeps the original scene only by staying on it or the failover
      scene, and takes a new one only by failing over. */
  lemma StepKeepsOriginal(c: Config, t: State, e: Event)
    requires t.original.Some? ==> t.failedOver
    requires t.port == 0 ==> t.original.None? && !t.failedOver
    ensures var u := Next(c, t, e);
            && (u.original.Some? ==> u.failedOver)
            && (u.port == 0 ==> u.original.None? && !u.failedOver && t.port == 0)
            && (u.original.Some? && t.original.Some? ==>
                  u.original == t.original && (u.scene == t.scene || u.scene == c.failover))
            && (u.original.Some? && t.original.None? ==>
                  && FailsOverFrom(c, t, e, u.original.value)
                  && u.scene == if e.r.haveFailover then c.failover else t.scene)
  {
  }

  lemma {:induction false} TraceGrows(c: Config, s: State, es: seq<Event>, e: Event, o: Scene, j: nat)
    requires j < |es| && TracedTo(c, s, es, o, j)
    requires var t, u := Run(c, s, es), Run(c, s, es + [e]); u.scene == t.scene || u.scene == c.failover
    ensures TracedTo(c, s, es + [e], o, j)
  {
    var more := es + [e];
    AtExtends(c, s, es, e, j);
    forall i | j < i <= |more|
      ensures var live := At(c, s, more, i).scene;
              live == c.failover || (live == o && !more[j].r.haveFailover)
    {
      if i <= |es| {
        AtExtends(c, s, es, e, i);
      } else {
        assert more[..i] == more && es[..|es|] == es;
        assert At(c, s, es, |es|) == Run(c, s, es);
      }
    }
  }

  lemma TraceStarts(c: Config, s: State, es: seq<Event>, e: Event, o: Scene)
    requires FailsOverFrom(c, Run(c, s, es), e, o)
    requires Run(c, s, es + [e]).scene == if e.r.haveFailover then c.failover else Run(c, s, es).scene
    ensures TracedTo(c, s, es + [e], o, |es|)
  {
    var more := es + [e];
    assert more[..|es|] == es && more[..|es| + 1] == more;
  }

  lemma {:induction false} RunIsSound(c: Config, scene: Scene, es: seq<Event>)
    ensures Sound(c, Initial(scene), es)
  {
    var s := Initial(scene);
    if es != [] {
      var p, e := es[..|es| - 1], es[|es| - 1];
      assert es == p + [e];
      RunIsSound(c, scene, p);
      RunExtends(c, s, p, e);
      var t, u := Run(c, s, p), Run(c, s, es);
      StepKeepsOriginal(c, t, e);
      if u.original.Some? {
        var o := u.original.value;
        if t.original.Some? {
          var j :| 0 <= j < |p| && TracedTo(c, s, p, o, j);
          TraceGrows(c, s, p, e, o, j);
        } else {
          TraceStarts(c, s, p, e, o);
        }
      }
    }
  }

  /** While a scene is remembered, nothing but it or the failover scene is live;
      and a tick that changes the live scene to anything but the failover scene
      restores the scene that was live when the matching failover fired.  If the
      failover scene existed then, it has been live ever since, so that the
      operator cannot have left it. */
  lemma RestoresTheRightScene(c: Config, scene: Scene, es: seq<Event>, r: Reading)
    ensures var s := Initial(scene);
            var t := Run(c, s, es);
            var u := Next(c, t, Tick(r));
            && (t.original.Some? && (forall e :: e in es && e.Tick? ==> e.r.haveFailover) ==> t.scene == c.failover)
            && (u.scene != t.scene && u.scene != c.failover ==>
                  exists j :: 0 <= j < |es| && TracedTo(c, s, es, u.scene, j))
  {
    RunIsSound(c, scene, es);
    var s := Initial(scene);
    var t := Run(c, s, es);
    if t.original.Some? {
      var j :| 0 <= j < |es| && TracedTo(c, s, es, t.original.value, j);
      assert es[..|es|] == es;
      assert At(c, s, es, |es|) == t;
      assert es[j] in es;
    }
  }

  // ---- no flapping ----

  /** Counts over a run: ticks that fail over, ticks that end a failover because
      the stream recovered, judged ticks by health, and scene choices of the
      operator other than the failover scene. */
  datatype Tally = Tally(entries: nat, recoveries: nat, unhealthy: nat, healthy: nat, choices: nat)

  predicate Judged(c: Config, s: State, e: Event, health: bool) {
    e.Tick? && Judges(c, s, e.r) && Healthy(s, e.r) == health
  }

  function Bit(b: bool): nat {
    if b then 1 else 0
  }

  function Counted(c: Config, s: State, e: Event, n: Tally): Tally {
    var u := Next(c, s, e);
    Tally(n.entries + Bit(e.Tick? && !s.failedOver && u.failedOver),
          n.recoveries + Bit(Judged(c, s, e, true) && s.failedOver && !u.failedOver),
          n.unhealthy + Bit(Judged(c, s, e, false)),
          n.healthy + Bit(Judged(c, s, e, true)),
          n.choices + Bit(e.SceneChosen? && e.scene != c.failover))
  }

  function Count(c: Config, s: State, es: seq<Event>): Tally {
    if es == [] then Tally(0, 0, 0, 0, 0)
    else Counted(c, Run(c, s, es[..|es| - 1]), es[|es| - 1], Count(c, s, es[..|es| - 1]))
  }

  /** Unhealthy ticks an automatic failover takes. */
  function Needed(c: Config): nat {
    if c.delay == 0 then 1 else c.delay
  }

  /** Unhealthy ticks already banked towards the next failover. */
  function Banked(c: Config, s: State): nat {
    if s.failedOver then 0 else if s.matchTicks < Needed(c) then s.matchTicks else Needed(c) - 1
  }

  ghost predicate Paid(c: Config, s: State, n: Tally) {
    && n.entries * Needed(c) + Banked(c, s) <= n.unhealthy + n.choices * (Needed(c) - 1)
    && n.recoveries * c.returnDelay + s.recoveryTicks <= n.healthy
    && n.recoveries + Bit(s.failedOver) <= n.entries
  }

  lemma PaidMultiples(a: nat, d: nat)
    ensures (a + 1) * d == a * d + d
  {
  }

  lemma StepPays(c: Config, s: State, e: Event, n: Tally)
    requires Paid(c, s, n) && (s.port == 0 ==> !s.failedOver && s.matchTicks == 0)
    ensures Paid(c, Next(c, s, e), Counted(c, s, e, n))
  {
    PaidMultiples(n.entries, Needed(c));
    PaidMultiples(n.choices, Needed(c) - 1);
    PaidMultiples(n.recoveries, c.returnDelay);
  }

  /** No flapping, for every sequence of readings and scene choices: each
      failover takes the configured number of unhealthy ticks, of which a scene
      choice of the operator can stand in for all but one, and each recovery
      takes the return delay in healthy ticks and a failover of its own. */
  lemma {:induction false} NoFlapping(c: Config, scene: Scene, es: seq<Event>)
    ensures var n := Count(c, Initial(scene), es);
            && n.entries * Needed(c) <= n.unhealthy + n.choices * (Needed(c) - 1)
            && n.recoveries * c.returnDelay <= n.healthy
            && n.recoveries <= n.entries
            && Paid(c, Run(c, Initial(scene), es), n)
  {
    if es != [] {
      var p, e := es[..|es| - 1], es[|es| - 1];
      NoFlapping(c, scene, p);
      RunIsSound(c, scene, p);
      StepPays(c, Run(c, Initial(scene), p), e, Count(c, Initial(scene), p));
    }
  }

  // ---- exact timing ----

  /** Every event is a judged tick of the given health with both scenes there. */
  ghost predicate Steady(c: Config, s: State, es: seq<Event>, health: bool) {
    forall k :: 0 <= k < |es| ==>
      Judged(c, At(c, s, es, k), es[k], health) && es[k].r.haveFailover && es[k].r.haveOriginal
  }

  lemma SteadyPrefix(c: Config, s: State, es: seq<Event>, health: bool)
    requires es != [] && Steady(c, s, es, health)
    ensures Steady(c, s, es[..|es| - 1], health)
  {
    var p := es[..|es| - 1];
    forall k | 0 <= k < |p| ensures At(c, s, p, k) == At(c, s, es, k) {
      assert p[..k] == es[..k];
    }
  }

  /** A stream that turns unhealthy is failed over from at exactly the tick the
      delay asks for, not before. */
  lemma {:induction false} FailsOverOnTime(c: Config, s: State, es: seq<Event>)
    requires !s.failedOver && s.matchTicks == 0 && s.original.None? && s.scene != c.failover
    requires Steady(c, s, es, false) && |es| <= Needed(c)
    ensures var t := Run(c, s, es);
            if |es| < Needed(c) then t.scene == s.scene && !t.failedOver && t.matchTicks == |es| && t.original.None?
            else t.scene == c.failover && t.failedOver && t.original == Some(s.scene)
  {
    if es != [] {
      SteadyPrefix(c, s, es, false);
      FailsOverOnTime(c, s, es[..|es| - 1]);
      assert Judged(c, At(c, s, es, |es| - 1), es[|es| - 1], false);
    }
  }

  /** A failed-over stream that turns healthy is restored at exactly the tick the
      return delay asks for. */
  lemma {:induction false} RecoversOnTime(c: Config, s: State, es: seq<Event>)
    requires s.failedOver && s.recoveryTicks == 0 && s.original.Some? && s.scene == c.failover
    requires s.original.value != c.failover
    requires Steady(c, s, es, true) && |es| <= c.returnDelay && c.returnDelay > 0
    ensures var t := Run(c, s, es);
            if |es| < c.returnDelay then
              t.scene == c.failover && t.failedOver && t.recoveryTicks == |es| && t.original == s.original
            else t.scene == s.original.value && !t.failedOver && t.original.None?
  {
    if es != [] {
      SteadyPrefix(c, s, es, true);
      RecoversOnTime(c, s, es[..|es| - 1]);
      assert Judged(c, At(c, s, es, |es| - 1), es[|es| - 1], true);
    }
  }

  // ---- the switcher object ----

  /** An empty name stands for no scene. */
  function Remembered(name: string): Option<Scene> {
    if name == "" then None else var scene: Scene := name; Some(scene)
  }

  class AutoSwitcher {
    const failoverScene: Scene
    const noFailoverScenes: set<Scene>
    const delay: nat
    const returnDelay: nat
    var liveScene: Scene
    var activePrimaryPort: nat
    var isCurrentlyFailover: bool
    var matchDurationCounter: nat
    var recoveryDurationCounter: nat
    var originalSceneName: string
    var networkDeadDurationMs: map<nat, nat>

    function Settings(): Config {
      Config(failoverScene, noFailoverScenes, delay, returnDelay)
    }

    ghost function Value(): State
      reads this
    {
      State(liveScene, activePrimaryPort, isCurrentlyFailover, matchDurationCounter, recoveryDurationCounter,
            Remembered(originalSceneName), networkDeadDurationMs)
    }

    constructor (failover: Scene, exempt: set<Scene>, delay: Setting, returnDelay: Setting, live: Scene)
      ensures Settings() == Config(failover, exempt, DelayOf(delay), ReturnDelayOf(returnDelay))
      ensures Value() == Initial(live)
    {
      failoverScene, noFailoverScenes := failover, exempt;
      this.delay, this.returnDelay := DelayOf(delay), ReturnDelayOf(returnDelay);
      liveScene, activePrimaryPort, isCurrentlyFailover := live, 0, false;
      matchDurationCounter, recoveryDurationCounter := 0, 0;
      originalSceneName, networkDeadDurationMs := "", map[];
    }

    method OnSceneChanged()
      modifies this
      ensures Value() == Changed(Settings(), old(Value()))
    {
      if liveScene != failoverScene {
        originalSceneName := "";
        isCurrentlyFailover := false;
      }
    }

    method SetCurrentScene(scene: Scene)
      modifies this
      ensures Value() == GoTo(Settings(), old(Value()), scene)
    {
      liveScene := scene;
      OnSceneChanged();
    }

    method CheckBitrate(r: Reading)
      modifies this
      ensures Value() == OnTick(Settings(), old(Value()), r)
    {
      if !r.listening && activePrimaryPort <= 0 {
        isCurrentlyFailover := false;
        matchDurationCounter := 0;
        return;
      }
      ghost var start := Value();
      FindPrimary(r);
      if activePrimaryPort > 0 {
        if liveScene in noFailoverScenes {
          isCurrentlyFailover := false;
          matchDurationCounter := 0;
          recoveryDurationCounter := 0;
          originalSceneName := "";
        } else {
          JudgeStream(r, start);
        }
      }
    }

    method FindPrimary(r: Reading)
      modifies this`activePrimaryPort
      ensures activePrimaryPort == Primary(old(Value()), r)
    {
      var active := activePrimaryPort > 0
                    && (activePrimaryPort in r.playing || Rate(r, activePrimaryPort) > 10.0);
      if !active && r.found > 0 && r.found != activePrimaryPort {
        activePrimaryPort := r.found;
      }
    }

    method JudgeStream(r: Reading, ghost start: State)
      requires Value() == start.(port := Primary(start, r))
      modifies this
      ensures Value() == Judge(Settings(), start, r)
    {
      hide FailOver, Restore, Primary, Rate;
      var port := activePrimaryPort;
      var mediaIsPlaying := port in r.playing;
      CountDead(r, start);
      var networkStopped := networkDeadDurationMs[port] >= 2000 || !r.listening;
      if !(mediaIsPlaying && !networkStopped) {
        recoveryDurationCounter := 0;
        if !isCurrentlyFailover {
          matchDurationCounter := matchDurationCounter + 1;
          if matchDurationCounter >= delay {
            EnterFailover(r);
          }
        }
      } else {
        matchDurationCounter := 0;
        if isCurrentlyFailover {
          recoveryDurationCounter := recoveryDurationCounter + 1;
          if recoveryDurationCounter >= returnDelay {
            LeaveFailover(r);
          }
        } else {
          recoveryDurationCounter := 0;
        }
      }
    }

    method CountDead(r: Reading, ghost start: State)
      requires Value() == start.(port := Primary(start, r))
      modifies this`networkDeadDurationMs
      ensures networkDeadDurationMs == old(networkDeadDurationMs)[activePrimaryPort := DeadNow(start, r)]
    {
      var port := activePrimaryPort;
      var dead := if port in networkDeadDurationMs then networkDeadDurationMs[port] else 0;
      if Rate(r, port) < 1.0 {
        networkDeadDurationMs := networkDeadDurationMs[port := dead + 1000];
      } else {
        networkDeadDurationMs := networkDeadDurationMs[port := 0];
      }
    }

    method EnterFailover(r: Reading)
      modifies this
      ensures Value() == FailOver(Settings(), old(Value()), r)
    {
      if liveScene != failoverScene {
        if originalSceneName == "" {
          originalSceneName := liveScene;
        }
        if r.haveFailover {
          SetCurrentScene(failoverScene);
        }
      }
      isCurrentlyFailover := true;
    }

    method LeaveFailover(r: Reading)
      modifies this
      ensures Value() == Restore(Settings(), old(Value()), r)
    {
      if originalSceneName != "" {
        var target: Scene := originalSceneName;
        originalSceneName := "";
        if r.haveOriginal {
          SetCurrentScene(target);
        }
      }
      isCurrentlyFailover := false;
      recoveryDurationCounter := 0;
    }
  }
}
