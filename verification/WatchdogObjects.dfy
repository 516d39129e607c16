/** The watchdog over the list of receiver sources, in place: one pass marks the
    sources to recover, a second collects them, a third reloads their players. */
module WatchdogObjects {
  import opened Watchdog

  class ReceiverSource {
    var threadRunning: bool
    var stopFlag: bool
    var mediaSource: bool
    var connectedSince: nat
    var lastRecoveryTime: nat
    var recoveryAttempts: nat
    var starvedSince: nat
    var lastAudioTime: nat
    var currentStreamHz: real
    var pendingReload: bool

    ghost function Value(): Source
      reads this
    {
      Source(threadRunning, stopFlag, mediaSource, connectedSince, lastRecoveryTime,
             recoveryAttempts, starvedSince, lastAudioTime, currentStreamHz)
    }

    constructor ()
      ensures Value() == CREATED && !pendingReload
    {
      threadRunning, stopFlag, mediaSource, pendingReload := false, false, false, false;
      connectedSince, lastRecoveryTime, recoveryAttempts := 0, 0, 0;
      starvedSince, lastAudioTime, currentStreamHz := 0, 0, 0.0;
    }

    method OnAudio(now: nat, hz: Measured)
      modifies this
      ensures Value() == Watchdog.OnAudio(old(Value()), now, hz) && pendingReload == old(pendingReload)
    {
      if !mediaSource || stopFlag {
        return;
      }
      lastAudioTime := now;
      recoveryAttempts := 0;
      if hz.Hz? {
        currentStreamHz := hz.value;
      }
    }

    method DestroyMedia()
      modifies this
      ensures Value() == old(Value()).(lastAudio := 0, hz := 0.0, starvedSince := 0)
      ensures pendingReload == old(pendingReload)
    {
      lastAudioTime := 0;
      currentStreamHz := 0.0;
      starvedSince := 0;
    }

    method CreateMedia(now: nat, made: bool) returns (media: bool)
      modifies this`starvedSince, this`lastRecoveryTime
      ensures media == made && starvedSince == 0 && lastRecoveryTime == now
    {
      starvedSince := 0;
      lastRecoveryTime := now;
      return made;
    }

    method ReloadMedia(now: nat, made: bool)
      modifies this
      ensures Value() == Reloaded(old(Value()), now, made) && pendingReload == old(pendingReload)
    {
      var oldMedia := mediaSource;
      mediaSource := false;
      if oldMedia {
        DestroyMedia();
      }
      var newMedia := CreateMedia(now, made);
      mediaSource := newMedia;
    }

    method ForceStop()
      modifies this
      ensures Value() == OnStop(old(Value())) && !pendingReload
    {
      stopFlag := true;
      threadRunning := false;
      var oldMedia := mediaSource;
      mediaSource := false;
      if oldMedia {
        DestroyMedia();
      }
      connectedSince, lastAudioTime, starvedSince := 0, 0, 0;
      lastRecoveryTime, recoveryAttempts, pendingReload := 0, 0, false;
    }

    /** Applies settings: `thread` and `media` say which part they change. */
    method UpdateSettings(now: nat, thread: bool, media: bool, started: bool, made: bool)
      modifies this
      ensures Value() == OnUpdate(old(Value()), now, thread, media, started, made)
      ensures pendingReload == old(pendingReload)
    {
      var mediaRestart := !mediaSource || media;
      var threadRestart := thread || !threadRunning;
      if threadRestart || mediaRestart {
        stopFlag := true;
        threadRunning := false;
        if mediaRestart {
          ReloadMedia(now, made);
        }
        stopFlag := false;
        if started {
          threadRunning := true;
        }
      }
    }

    /** The first pass over one source: decides, and marks it if it is hung. */
    method Examine(now: nat, groups: bool)
      requires !pendingReload
      modifies this
      ensures Value() == Examined(old(Value()), now, groups)
      ensures pendingReload == Decides(old(Value()), now, groups)
    {
      if !threadRunning {
        return;
      }
      if groups {
        if connectedSince == 0 {
          connectedSince := now;
          lastRecoveryTime := now;
          recoveryAttempts := 0;
        }
        var inCooldown := lastRecoveryTime > 0 && Since(now, lastRecoveryTime) < COOLDOWN;
        var audioStarved := false;
        if lastAudioTime > 0 && Since(now, lastAudioTime) < AUDIO_RECENT
           && currentStreamHz > 0.0 && currentStreamHz < STARVED_HZ {
          if starvedSince == 0 {
            starvedSince := now;
          } else if Since(now, starvedSince) >= STARVATION {
            audioStarved := true;
          }
        } else {
          starvedSince := 0;
        }
        if !inCooldown && recoveryAttempts < MAX_ATTEMPTS && audioStarved {
          recoveryAttempts := recoveryAttempts + 1;
          lastRecoveryTime := now;
          starvedSince := 0;
          pendingReload := true;
        }
      } else {
        connectedSince, lastAudioTime, starvedSince, currentStreamHz := 0, 0, 0, 0.0;
        lastRecoveryTime, recoveryAttempts, pendingReload := 0, 0, false;
      }
    }
  }

  function Examined(s: Source, now: nat, groups: bool): Source {
    if !s.running then s else if !groups then Disconnected(s) else Watched(s, now)
  }

  ghost predicate Distinct(sources: seq<ReceiverSource>) {
    forall i, j :: 0 <= i < j < |sources| ==> sources[i] != sources[j]
  }

  method ExamineAll(sources: seq<ReceiverSource>, now: nat, groups: seq<bool>)
    requires Distinct(sources) && |groups| == |sources|
    requires forall s :: s in sources ==> !s.pendingReload
    modifies sources
    ensures forall i :: 0 <= i < |sources| ==>
      && sources[i].Value() == Examined(old(sources[i].Value()), now, groups[i])
      && sources[i].pendingReload == Decides(old(sources[i].Value()), now, groups[i])
  {
    hide Examined, Decides;
    for i := 0 to |sources|
      invariant forall j :: 0 <= j < i ==>
        && sources[j].Value() == Examined(old(sources[j].Value()), now, groups[j])
        && sources[j].pendingReload == Decides(old(sources[j].Value()), now, groups[j])
      invariant forall j :: i <= j < |sources| ==>
        sources[j].Value() == old(sources[j].Value()) && !sources[j].pendingReload
    {
      sources[i].Examine(now, groups[i]);
    }
  }

  /** The positions of the marked sources, in list order; the marks are cleared. */
  method Collect(sources: seq<ReceiverSource>) returns (targets: seq<nat>)
    requires Distinct(sources)
    modifies sources
    ensures forall k :: k in targets <==> 0 <= k < |sources| && old(sources[k].pendingReload)
    ensures forall a, b :: 0 <= a < b < |targets| ==> targets[a] < targets[b]
    ensures forall i :: 0 <= i < |sources| ==>
      sources[i].Value() == old(sources[i].Value()) && !sources[i].pendingReload
  {
    targets := [];
    for i := 0 to |sources|
      invariant forall j :: 0 <= j < |sources| ==>
        && sources[j].Value() == old(sources[j].Value())
        && sources[j].pendingReload == (i <= j && old(sources[j].pendingReload))
      invariant forall k :: k in targets <==> 0 <= k < i && old(sources[k].pendingReload)
      invariant forall a :: 0 <= a < |targets| ==> targets[a] < i
      invariant forall a, b :: 0 <= a < b < |targets| ==> targets[a] < targets[b]
    {
      if sources[i].pendingReload {
        targets := targets + [i];
        sources[i].pendingReload := false;
      }
    }
  }

  method ReloadAll(sources: seq<ReceiverSource>, targets: seq<nat>, done: seq<nat>, made: seq<bool>)
    requires Distinct(sources) && |done| == |made| == |sources|
    requires forall k :: k in targets ==> k < |sources|
    requires forall a, b :: 0 <= a < b < |targets| ==> targets[a] < targets[b]
    modifies sources
    ensures forall i :: 0 <= i < |sources| ==>
      && sources[i].Value() == (if i in targets then Reloaded(old(sources[i].Value()), done[i], made[i])
                                else old(sources[i].Value()))
      && sources[i].pendingReload == old(sources[i].pendingReload)
  {
    hide Reloaded;
    for t := 0 to |targets|
      invariant forall i :: 0 <= i < |sources| ==>
        && sources[i].Value() == (if i in targets[..t] then Reloaded(old(sources[i].Value()), done[i], made[i])
                                  else old(sources[i].Value()))
        && sources[i].pendingReload == old(sources[i].pendingReload)
    {
      var k := targets[t];
      assert k in targets && k !in targets[..t];
      assert targets[..t + 1] == targets[..t] + [k];
      sources[k].ReloadMedia(done[k], made[k]);
    }
    assert targets[..|targets|] == targets;
  }

  /** One poll of the watchdog: every source ends up as its own poll says, and
      exactly the sources found hung have had their player reloaded. */
  method AutoRecoverHungSources(sources: seq<ReceiverSource>, now: nat, groups: seq<bool>,
                                done: seq<nat>, made: seq<bool>)
    returns (targets: seq<nat>)
    requires Distinct(sources) && |groups| == |done| == |made| == |sources|
    requires forall s :: s in sources ==> !s.pendingReload
    modifies sources
    ensures forall s :: s in sources ==> !s.pendingReload
    ensures forall i :: 0 <= i < |sources| ==>
      sources[i].Value() == OnPoll(old(sources[i].Value()), now, groups[i], done[i], made[i])
    ensures forall i :: i in targets <==>
      0 <= i < |sources| && Decides(old(sources[i].Value()), now, groups[i])
  {
    hide Reloaded, Watched, Disconnected;
    ExamineAll(sources, now, groups);
    targets := Collect(sources);
    ReloadAll(sources, targets, done, made);
  }
}
