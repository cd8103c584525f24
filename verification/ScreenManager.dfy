/**
  `ScreenManager`: the lock sections of src/screen.rs over the session map and the
  audio producers, each proved to be one step of `SessionRegistry`.
*/
module ScreenManagers {
  import opened Common
  import opened SessionRegistry

  class ScreenManager {
    var sessions: map<nat, Entry>
    var audio: map<nat, AudioTask>
    var lock: Lock
    /** The whole system, of which the fields above are a part. */
    ghost var world: State

    ghost predicate Valid()
      reads this
    {
      Inv(world) && world.sessions == sessions && world.audio == audio && world.lock == lock
    }

    constructor ()
      ensures Valid() && world == INITIAL
    {
      sessions, audio, lock, world := map[], map[], Free, INITIAL;
    }

    ghost method Advance(a: Action)
      requires Inv(world) && CanStep(world, a)
      requires Step(world, a).sessions == sessions && Step(world, a).audio == audio && Step(world, a).lock == lock
      modifies this`world
      ensures Valid() && world == Step(old(world), a)
    {
      StepInv(world, a);
      world := Step(world, a);
    }

    method StartStream(id: nat, token: nat, wantsAudio: bool)
      requires Valid() && CanStep(world, Start(id, token, wantsAudio))
      modifies this
      ensures Valid() && world == Step(old(world), Start(id, token, wantsAudio))
    {
      hide Inv;
      sessions := sessions[id := Pending(token, wantsAudio)];
      Advance(Start(id, token, wantsAudio));
    }

    /** The search for the session that the token opens. */
    method FindPending(token: nat) returns (found: Option<nat>)
      ensures match found
              case Some(id) => id in sessions && sessions[id].Pending? && sessions[id].token == token
              case None => forall id :: id in sessions && sessions[id].Pending? ==> sessions[id].token != token
    {
      var left := sessions.Keys;
      while left != {}
        invariant left <= sessions.Keys
        invariant forall id :: id in sessions && id !in left && sessions[id].Pending? ==> sessions[id].token != token
        decreases left
      {
        var id :| id in left;
        if sessions[id].Pending? && sessions[id].token == token {
          return Some(id);
        }
        left := left - {id};
      }
      return None;
    }

    /** The first lock section of attach; a token that opens nothing changes nothing. */
    method TakePending(token: nat) returns (taken: Option<(nat, bool)>)
      requires Valid() && lock.Free?
      modifies this
      ensures Valid()
      ensures taken.None? ==> world == old(world) && forall id: nat :: !CanStep(old(world), Take(id, token))
      ensures taken.Some? ==>
                var (id, wants) := taken.value;
                && CanStep(old(world), Take(id, token)) && world == Step(old(world), Take(id, token))
                && id in world.attaching && world.attaching[id] == wants
    {
      hide Inv;
      var found := FindPending(token);
      if found.None? {
        return None;
      }
      var wants := sessions[found.value].wantsAudio;
      sessions := Without(sessions, found.value);
      Advance(Take(found.value, token));
      return Some((found.value, wants));
    }

    /**
      The second lock section of attach, undisturbed: take the lock, spawn the producers, insert the entry.
      In between, the tasks already spawned may run; the step system has their steps there.
    */
    method Register(id: nat, wants: bool, a: nat)
      requires Valid() && lock.Free? && id in world.attaching && world.attaching[id] == wants && a !in audio
      modifies this
      ensures Valid() && lock.Free?
      ensures Legal(old(world), RegisterRun(id, wants, a)) && world == End(old(world), RegisterRun(id, wants, a))
    {
      hide Inv, Legal, End, RegisterRun;
      RegisterEnds(world, id, a);
      lock := Attach(id, Locked);
      Advance(LockRegistry(id));
      lock := Attach(id, VideoSpawned);
      Advance(SpawnVideo(id));
      var handle: Option<nat> := None;
      if wants {
        audio := audio[a := AudioTask(id, true, false, false)];
        handle := Some(a);
        lock := Attach(id, AudioSpawned(a));
        Advance(SpawnAudio(id, a));
      }
      sessions := sessions[id := Running(handle)];
      lock := Free;
      Advance(Insert(id));
    }

    /** Dropping or stopping a handle signals its producer. */
    method SignalAudio(h: Option<nat>)
      modifies this`audio
      ensures audio == Signal(old(audio), h)
    {
      if h.Some? && h.value in audio {
        audio := audio[h.value := audio[h.value].(signalled := true)];
      }
    }

    /** The last act of a video task. */
    method Deregister(id: nat)
      requires Valid() && CanStep(world, VideoRemoves(id))
      modifies this
      ensures Valid() && world == Step(old(world), VideoRemoves(id))
    {
      hide Inv;
      if id in sessions && sessions[id].Running? {
        SignalAudio(sessions[id].audio);
      }
      sessions := Without(sessions, id);
      Advance(VideoRemoves(id));
    }

    method StopStream(id: nat) returns (removed: Option<Entry>)
      requires Valid() && lock.Free?
      modifies this
      ensures Valid() && world == Step(old(world), Stop(id))
      ensures removed == if id in old(sessions) then Some(old(sessions)[id]) else None
    {
      hide Inv;
      removed := if id in sessions then Some(sessions[id]) else None;
      sessions := Without(sessions, id);
      Advance(Stop(id));
    }

    /** `Ok(started)` as `Some(started)`; an unknown session is an error. */
    method StartAudio(id: nat, a: nat) returns (started: Option<bool>)
      requires Valid() && lock.Free? && a !in audio
      modifies this
      ensures Valid() && world == Step(old(world), Action.StartAudio(id, a))
      ensures started.None? <==> id !in old(sessions)
      ensures started == Some(true) <==> a in audio
    {
      hide Inv;
      if id !in sessions {
        started := None;
      } else if sessions[id].Pending? {
        sessions := sessions[id := sessions[id].(wantsAudio := true)];
        started := Some(false);
      } else {
        var handle := sessions[id].audio;
        if handle.Some? && handle.value in audio && audio[handle.value].live {
          audio := audio[handle.value := audio[handle.value].(muted := false)];
          started := Some(false);
        } else {
          SignalAudio(handle);
          audio := audio[a := AudioTask(id, true, false, false)];
          sessions := sessions[id := Running(Some(a))];
          started := Some(true);
        }
      }
      Advance(Action.StartAudio(id, a));
    }

    method StopAudio(id: nat) returns (known: bool)
      requires Valid() && lock.Free?
      modifies this
      ensures Valid() && world == Step(old(world), Action.StopAudio(id)) && known == (id in old(sessions))
    {
      hide Inv;
      known := id in sessions;
      if known {
        if sessions[id].Pending? {
          sessions := sessions[id := sessions[id].(wantsAudio := false)];
        } else {
          SignalAudio(sessions[id].audio);
          sessions := sessions[id := Running(None)];
        }
      }
      Advance(Action.StopAudio(id));
    }

    /** `None`: the session is unknown; `Some(false)`: it is running without audio, an error too. */
    method SetAudioMute(id: nat, muted: bool) returns (done: Option<bool>)
      requires Valid() && lock.Free?
      modifies this
      ensures Valid() && world == Step(old(world), SetMute(id, muted))
      ensures done.None? <==> id !in old(sessions)
      ensures done == Some(false) <==> id in old(sessions) && old(sessions)[id] == Running(None)
      ensures forall h :: h in old(audio) <==> h in audio
      ensures forall h :: h in audio ==>
                audio[h] == if id in sessions && sessions[id] == Running(Some(h)) then old(audio)[h].(muted := muted)
                            else old(audio)[h]
    {
      hide Inv;
      done := None;
      if id in sessions {
        done := Some(sessions[id] != Running(None));
        if sessions[id].Running? && sessions[id].audio.Some? && sessions[id].audio.value in audio {
          var h := sessions[id].audio.value;
          audio := audio[h := audio[h].(muted := muted)];
        }
      }
      Advance(SetMute(id, muted));
    }
  }
}
