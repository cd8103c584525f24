/**
  The session registry of src/screen.rs: `start_stream`, the two lock sections of
  `attach_stream_client`, `stop_stream`, the audio commands and the end of a video
  task. Each lock section is a step of its own; the second section of attach, which
  spawns tasks that run at once, is a step per spawn, under the lock.
*/
module SessionRegistry {
  import opened Common

  /** Registry entries. `audio` of a running entry is the producer whose handle it owns. */
  datatype Entry = Pending(token: nat, wantsAudio: bool) | Running(audio: Option<nat>)

  /** A video task streams, then waits for the registry lock to remove its entry, then is gone. */
  datatype VideoTask = Streaming | Removing | Gone

  datatype AudioTask = AudioTask(session: nat, live: bool, signalled: bool, muted: bool)

  /** How far the second lock section of attach has come. */
  datatype Stage = Locked | VideoSpawned | AudioSpawned(handle: nat)

  datatype Lock = Free | Attach(id: nat, stage: Stage)

  /**
    `attaching` holds the sessions taken by an attach that is between its lock sections,
    `held` the audio handles of entries a stop call has removed but not dropped yet.
    `ids`, `tokens` and `attached` record the identifiers handed out and the tokens redeemed.
  */
  datatype State = State(
    sessions: map<nat, Entry>,
    attaching: map<nat, bool>,
    held: map<nat, Option<nat>>,
    video: map<nat, VideoTask>,
    audio: map<nat, AudioTask>,
    lock: Lock,
    ids: set<nat>,
    tokens: set<nat>,
    attached: seq<nat>) {

    /** The attach of this session is inside its second lock section, past stage `Locked`. */
    predicate Spawned(id: nat) {
      lock.Attach? && lock.id == id && !lock.stage.Locked?
    }
  }

  const INITIAL: State := State(map[], map[], map[], map[], map[], Free, {}, {}, [])

  datatype Action =
    | Start(id: nat, token: nat, wantsAudio: bool)
    | Take(id: nat, token: nat)
    | LockRegistry(id: nat)
    | SpawnVideo(id: nat)
    | SpawnAudio(id: nat, a: nat)
    | Insert(id: nat)
    | AbandonAttach(id: nat)
    | VideoEnds(id: nat)
    | VideoRemoves(id: nat)
    | Stop(id: nat)
    | StopReturns(id: nat, aborted: bool)
    | StartAudio(id: nat, a: nat)
    | StopAudio(id: nat)
    | SetMute(id: nat, muted: bool)
    | AudioExits(a: nat)

  function Without<K, V>(m: map<K, V>, k: K): map<K, V> {
    map x | x in m && x != k :: m[x]
  }

  /** The handle `h`, if any, is dropped or stopped: its producer is told to stop. */
  function Signal(audio: map<nat, AudioTask>, h: Option<nat>): map<nat, AudioTask> {
    if h.Some? && h.value in audio then audio[h.value := audio[h.value].(signalled := true)] else audio
  }

  /** The audio handle a session owns: in its entry, in the attach that is about to insert it, or in a stop call. */
  function Handle(s: State, id: nat): Option<nat> {
    if id in s.sessions && s.sessions[id].Running? then s.sessions[id].audio
    else if s.Spawned(id) && s.lock.stage.AudioSpawned? then Some(s.lock.stage.handle)
    else if id in s.held then s.held[id]
    else None
  }

  /** The audio handle an attach holds before it inserts the entry. */
  function InHand(stage: Stage): Option<nat> {
    if stage.AudioSpawned? then Some(stage.handle) else None
  }

  predicate Live(audio: map<nat, AudioTask>, h: Option<nat>) {
    h.Some? && h.value in audio && audio[h.value].live
  }

  /** The handle's producer is told to be silent or not. */
  function Muted(audio: map<nat, AudioTask>, h: Option<nat>, muted: bool): map<nat, AudioTask> {
    if h.Some? && h.value in audio then audio[h.value := audio[h.value].(muted := muted)] else audio
  }

  /** What takes the registry lock for one step needs it free. */
  predicate CanStep(s: State, a: Action) {
    match a
    case Start(id, token, _) => s.lock.Free? && id !in s.ids && token !in s.tokens
    case Take(id, token) =>
      s.lock.Free? && id in s.sessions && s.sessions[id].Pending? && s.sessions[id].token == token
    case LockRegistry(id) => s.lock.Free? && id in s.attaching
    case SpawnVideo(id) => s.lock == Attach(id, Locked)
    case SpawnAudio(id, a) =>
      s.lock == Attach(id, VideoSpawned) && id in s.attaching && s.attaching[id] && a !in s.audio
    case Insert(id) =>
      s.Spawned(id) && id in s.attaching && s.attaching[id] == s.lock.stage.AudioSpawned?
    // Nothing is awaited once the lock is held, so the call cannot be dropped there.
    case AbandonAttach(id) => id in s.attaching && !(s.lock.Attach? && s.lock.id == id)
    case VideoEnds(id) => id in s.video && s.video[id] == Streaming
    case VideoRemoves(id) => s.lock.Free? && id in s.video && s.video[id] == Removing
    case Stop(id) => s.lock.Free?
    // The stop call waits for the video task, aborts it, or is itself cancelled.
    case StopReturns(id, aborted) => id in s.held && id in s.video
    case StartAudio(id, a) => s.lock.Free? && a !in s.audio
    case StopAudio(id) => s.lock.Free?
    case SetMute(id, _) => s.lock.Free?
    case AudioExits(a) => a in s.audio && s.audio[a].live
  }

  function Step(s: State, a: Action): State
    requires CanStep(s, a)
  {
    match a
    case Start(id, token, wants) =>
      s.(sessions := s.sessions[id := Pending(token, wants)], ids := s.ids + {id}, tokens := s.tokens + {token})
    case Take(id, token) =>
      s.(sessions := Without(s.sessions, id), attaching := s.attaching[id := s.sessions[id].wantsAudio],
         attached := s.attached + [token])
    case LockRegistry(id) => s.(lock := Attach(id, Locked))
    case SpawnVideo(id) => s.(lock := Attach(id, VideoSpawned), video := s.video[id := Streaming])
    case SpawnAudio(id, a) =>
      s.(lock := Attach(id, AudioSpawned(a)), audio := s.audio[a := AudioTask(id, true, false, false)])
    case Insert(id) =>
      s.(lock := Free, attaching := Without(s.attaching, id), sessions := s.sessions[id := Running(InHand(s.lock.stage))])
    case AbandonAttach(id) => s.(attaching := Without(s.attaching, id))
    case VideoEnds(id) => s.(video := s.video[id := Removing])
    case VideoRemoves(id) => Removed(s, id).(video := s.video[id := Gone])
    case Stop(id) =>
      if id in s.sessions && s.sessions[id].Running?
      then s.(sessions := Without(s.sessions, id), held := s.held[id := s.sessions[id].audio])
      else s.(sessions := Without(s.sessions, id))
    case StopReturns(id, aborted) =>
      s.(held := Without(s.held, id), audio := Signal(s.audio, s.held[id]),
         video := if aborted then s.video[id := Gone] else s.video)
    case _ =>
      State(EntriesAfter(s.sessions, s.audio, a), s.attaching, s.held, s.video, ProducersAfter(s.sessions, s.audio, a),
            s.lock, s.ids, s.tokens, s.attached)
  }

  /** The audio commands: a running session without a live producer gets a new one, a pending one is noted down. */
  function EntriesAfter(sessions: map<nat, Entry>, audio: map<nat, AudioTask>, a: Action): map<nat, Entry> {
    if (!a.StartAudio? && !a.StopAudio?) || a.id !in sessions then sessions
    else if sessions[a.id].Pending? then sessions[a.id := Pending(sessions[a.id].token, a.StartAudio?)]
    else if a.StopAudio? then sessions[a.id := Running(None)]
    else if Live(audio, sessions[a.id].audio) then sessions
    else sessions[a.id := Running(Some(a.a))]
  }

  /** A live producer is unmuted by a start; a handle that is replaced or taken signals its producer. */
  function ProducersAfter(sessions: map<nat, Entry>, audio: map<nat, AudioTask>, a: Action): map<nat, AudioTask> {
    if a.AudioExits? then (if a.a in audio then audio[a.a := audio[a.a].(live := false)] else audio)
    else if (!a.StartAudio? && !a.StopAudio? && !a.SetMute?) || a.id !in sessions || sessions[a.id].Pending? then audio
    else
      var h := sessions[a.id].audio;
      if a.SetMute? then Muted(audio, h, a.muted)
      else if a.StopAudio? then Signal(audio, h)
      else if Live(audio, h) then Muted(audio, h, false)
      else Signal(audio, h)[a.a := AudioTask(a.id, true, false, false)]
  }

  /** The entry of `id` is removed and dropped, and its audio handle with it. */
  function Removed(s: State, id: nat): State {
    s.(sessions := Without(s.sessions, id),
       audio := if id in s.sessions && s.sessions[id].Running? then Signal(s.audio, s.sessions[id].audio) else s.audio)
  }

  // ---------------------------------------------------------------------
  // The invariant
  // ---------------------------------------------------------------------

  /**
    A session is pending, being attached, running or held by a stop call, never two of these. An
    attached session has a video task once its attach has spawned it, and that task cannot be gone
    before the entry is inserted, because it needs the lock to go.
  */
  ghost predicate IdOk(s: State, id: nat) {
    && (id in s.sessions || id in s.attaching || id in s.held || id in s.video ==> id in s.ids)
    && (id in s.attaching ==> id !in s.sessions && id !in s.held && (id in s.video <==> s.Spawned(id)))
    && (s.lock.Attach? && s.lock.id == id ==> id in s.attaching)
    && (s.Spawned(id) ==> id in s.video && s.video[id] != Gone)
    && (s.Spawned(id) && s.lock.stage.AudioSpawned? && id in s.attaching ==> s.attaching[id])
    && (id in s.held ==> id !in s.sessions && id in s.video)
    && (id in s.sessions && s.sessions[id].Pending? ==> id !in s.video && id !in s.held)
    && (id in s.sessions && s.sessions[id].Running? ==> id in s.video && s.video[id] != Gone)
  }

  ghost predicate TokenOk(s: State, id: nat) {
    id in s.sessions && s.sessions[id].Pending? ==>
      s.sessions[id].token in s.tokens && s.sessions[id].token !in s.attached
  }

  ghost predicate TokensDiffer(s: State, i: nat, j: nat) {
    i in s.sessions && j in s.sessions && s.sessions[i].Pending? && s.sessions[j].Pending? && i != j ==>
      s.sessions[i].token != s.sessions[j].token
  }

  ghost predicate AttachedOk(s: State) {
    && (forall i :: 0 <= i < |s.attached| ==> s.attached[i] in s.tokens)
    && (forall i, j :: 0 <= i < j < |s.attached| ==> s.attached[i] != s.attached[j])
  }

  /** An owned handle belongs to its session's own producer, which has not been signalled. */
  ghost predicate HandleOk(s: State, id: nat) {
    Handle(s, id).Some? ==>
      var a := Handle(s, id).value;
      a in s.audio && s.audio[a].session == id && !s.audio[a].signalled
  }

  /** A live producer that has not been signalled is owned by its session. */
  ghost predicate AudioOk(s: State, a: nat) {
    a in s.audio && s.audio[a].live && !s.audio[a].signalled ==> Handle(s, s.audio[a].session) == Some(a)
  }

  ghost predicate IdsOk(s: State) { forall id: nat :: IdOk(s, id) }
  ghost predicate TokensOk(s: State) {
    (forall id: nat :: TokenOk(s, id)) && (forall i: nat, j: nat :: TokensDiffer(s, i, j)) && AttachedOk(s)
  }
  ghost predicate HandlesOk(s: State) { forall id: nat :: HandleOk(s, id) }
  ghost predicate AudiosOk(s: State) { forall a: nat :: AudioOk(s, a) }

  ghost predicate Inv(s: State) {
    IdsOk(s) && TokensOk(s) && HandlesOk(s) && AudiosOk(s)
  }

  /** The steps of starting and attaching; the others stop a session, end a task or concern audio. */
  predicate Opening(a: Action) {
    a.Start? || a.Take? || a.LockRegistry? || a.SpawnVideo? || a.SpawnAudio? || a.Insert? || a.AbandonAttach?
  }

  lemma IdsOpening(s: State, a: Action)
    requires IdsOk(s) && CanStep(s, a) && Opening(a)
    ensures IdsOk(Step(s, a))
  {
    hide Handle, Live, Signal, Muted;
    forall id: nat ensures IdOk(Step(s, a), id) {
      assert IdOk(s, id);
    }
  }

  predicate ForAudio(a: Action) {
    a.StartAudio? || a.StopAudio? || a.SetMute? || a.AudioExits?
  }

  /** Audio steps leave every session where it is. */
  lemma AudioPlaces(s: State, a: Action, id: nat)
    requires CanStep(s, a) && ForAudio(a)
    ensures var s' := Step(s, a);
            && s'.attaching == s.attaching && s'.held == s.held && s'.video == s.video && s'.lock == s.lock
            && s'.ids == s.ids && s'.tokens == s.tokens && s'.attached == s.attached
            && (id in s.sessions <==> id in s'.sessions)
    ensures id in s.sessions ==>
              && s.sessions[id].Pending? == Step(s, a).sessions[id].Pending?
              && (s.sessions[id].Pending? ==> s.sessions[id].token == Step(s, a).sessions[id].token)
  {
    AudioStepIs(s, a);
    EntryPlaces(s.sessions, s.audio, a, id);
    hide Step, CanStep, EntriesAfter, ProducersAfter;
  }

  lemma AudioStepIs(s: State, a: Action)
    requires CanStep(s, a) && ForAudio(a)
    ensures Step(s, a) == State(EntriesAfter(s.sessions, s.audio, a), s.attaching, s.held, s.video,
                                ProducersAfter(s.sessions, s.audio, a), s.lock, s.ids, s.tokens, s.attached)
  {
    hide EntriesAfter, ProducersAfter;
  }

  lemma EntryPlaces(sessions: map<nat, Entry>, audio: map<nat, AudioTask>, a: Action, id: nat)
    ensures var after := EntriesAfter(sessions, audio, a);
            && (id in sessions <==> id in after)
            && (id in sessions ==>
                  && sessions[id].Pending? == after[id].Pending?
                  && (sessions[id].Pending? ==> sessions[id].token == after[id].token))
  {
  }

  lemma IdsAudio(s: State, a: Action)
    requires IdsOk(s) && CanStep(s, a) && ForAudio(a)
    ensures IdsOk(Step(s, a))
  {
    hide Step, CanStep;
    forall id: nat ensures IdOk(Step(s, a), id) {
      AudioPlaces(s, a, id);
      assert IdOk(s, id);
    }
  }

  lemma IdsClosing(s: State, a: Action)
    requires IdsOk(s) && CanStep(s, a) && !Opening(a) && !ForAudio(a)
    ensures IdsOk(Step(s, a))
  {
    hide Handle, Live, Signal, Muted;
    forall id: nat ensures IdOk(Step(s, a), id) {
      assert IdOk(s, id);
    }
  }

  lemma IdsStep(s: State, a: Action)
    requires IdsOk(s) && CanStep(s, a)
    ensures IdsOk(Step(s, a))
  {
    hide *;
    if Opening(a) {
      IdsOpening(s, a);
    } else if ForAudio(a) {
      IdsAudio(s, a);
    } else {
      IdsClosing(s, a);
    }
  }

  /** Where a pending entry comes from. */
  lemma PendingAfter(s: State, a: Action, id: nat)
    requires CanStep(s, a) && id in Step(s, a).sessions && Step(s, a).sessions[id].Pending?
    ensures var now := Step(s, a).sessions[id].token;
            || (a.Start? && a.id == id && a.token == now)
            || (id in s.sessions && s.sessions[id].Pending? && s.sessions[id].token == now && !(a.Take? && a.id == id))
  {
    if ForAudio(a) {
      AudioPlaces(s, a, id);
    } else {
      PendingMoved(s, a, id);
    }
    hide Step, CanStep;
  }

  lemma PendingMoved(s: State, a: Action, id: nat)
    requires CanStep(s, a) && !ForAudio(a) && id in Step(s, a).sessions && Step(s, a).sessions[id].Pending?
    ensures var now := Step(s, a).sessions[id].token;
            || (a.Start? && a.id == id && a.token == now)
            || (id in s.sessions && s.sessions[id].Pending? && s.sessions[id].token == now && !(a.Take? && a.id == id))
  {
    hide CanStep, Handle, Live, Signal, Muted;
  }

  lemma OpeningRecorded(s: State, a: Action)
    requires CanStep(s, a) && Opening(a)
    ensures Step(s, a).tokens == if a.Start? then s.tokens + {a.token} else s.tokens
    ensures Step(s, a).attached == if a.Take? then s.attached + [a.token] else s.attached
  {
    hide CanStep, Without;
  }

  lemma ClosingRecorded(s: State, a: Action)
    requires CanStep(s, a) && !Opening(a)
    ensures Step(s, a).tokens == s.tokens && Step(s, a).attached == s.attached
  {
    if ForAudio(a) {
      AudioPlaces(s, a, 0);
    } else {
      hide CanStep, Without, Live, Signal, Muted;
    }
  }

  lemma TokensRecorded(s: State, a: Action)
    requires CanStep(s, a)
    ensures Step(s, a).tokens == if a.Start? then s.tokens + {a.token} else s.tokens
    ensures Step(s, a).attached == if a.Take? then s.attached + [a.token] else s.attached
    ensures a.Start? ==> a.token !in s.tokens
    ensures a.Take? ==> a.id in s.sessions && s.sessions[a.id] == Pending(a.token, s.sessions[a.id].wantsAudio)
  {
    hide Step;
    if Opening(a) {
      OpeningRecorded(s, a);
    } else {
      ClosingRecorded(s, a);
    }
  }

  lemma TokensStep(s: State, a: Action)
    requires TokensOk(s) && CanStep(s, a)
    ensures TokensOk(Step(s, a))
  {
    hide Step, CanStep;
    var s' := Step(s, a);
    TokensRecorded(s, a);
    forall id: nat ensures TokenOk(s', id) {
      assert TokenOk(s, id);
      if id in s'.sessions && s'.sessions[id].Pending? { PendingAfter(s, a, id); }
      if a.Take? { assert TokensDiffer(s, id, a.id); }
    }
    forall i: nat, j: nat ensures TokensDiffer(s', i, j) {
      assert TokensDiffer(s, i, j) && TokenOk(s, i) && TokenOk(s, j);
      if i in s'.sessions && s'.sessions[i].Pending? { PendingAfter(s, a, i); }
      if j in s'.sessions && s'.sessions[j].Pending? { PendingAfter(s, a, j); }
    }
    if a.Take? { assert TokenOk(s, a.id); }
  }

  /** Apart from `SpawnAudio` the opening steps leave every producer and every handle with its session. */
  lemma OpeningHandles(s: State, a: Action, id: nat)
    requires IdsOk(s) && CanStep(s, a) && Opening(a) && !a.SpawnAudio?
    ensures Step(s, a).audio == s.audio && Handle(Step(s, a), id) == Handle(s, id)
  {
    assert IdOk(s, id) && IdOk(s, a.id);
  }

  lemma SpawnHandles(s: State, a: Action, id: nat)
    requires IdsOk(s) && CanStep(s, a) && a.SpawnAudio?
    ensures Step(s, a).audio == s.audio[a.a := AudioTask(a.id, true, false, false)]
    ensures Handle(Step(s, a), id) == if id == a.id then Some(a.a) else Handle(s, id)
    ensures Handle(s, a.id).None? && a.a !in s.audio
  {
    assert IdOk(s, id) && IdOk(s, a.id);
  }

  /** The session a closing step concerns, whose handle it may take away. */
  predicate Concerns(a: Action, id: nat) {
    (a.VideoRemoves? || a.StopReturns? || a.StartAudio? || a.StopAudio?) && a.id == id
  }

  /** What a closing step does to the producers of the session it concerns: keep, signal, replace or mute. */
  ghost predicate AudioMoves(before: map<nat, AudioTask>, h: Option<nat>, after: map<nat, AudioTask>, h': Option<nat>, a: Action) {
    || (after == before && h' == h)
    || (after == Signal(before, h) && h' == None)
    || (a.StartAudio? && a.a !in before && h' == Some(a.a) &&
        after == Signal(before, h)[a.a := AudioTask(a.id, true, false, false)])
    || (h' == h && exists muted :: after == Muted(before, h, muted))
  }

  lemma ClosingHandles(s: State, a: Action, id: nat)
    requires IdsOk(s) && CanStep(s, a) && !Opening(a) && !Concerns(a, id)
    ensures Handle(Step(s, a), id) == Handle(s, id)
  {
    assert IdOk(s, id);
    if ForAudio(a) {
      AudioHandles(s, a, id);
    } else {
      TaskHandles(s, a, id);
    }
    hide Step, CanStep, Handle, IdsOk, IdOk;
  }

  lemma AudioHandles(s: State, a: Action, id: nat)
    requires IdOk(s, id) && CanStep(s, a) && ForAudio(a) && !Concerns(a, id)
    ensures Handle(Step(s, a), id) == Handle(s, id)
  {
    AudioStepIs(s, a);
    hide Step, CanStep, ProducersAfter, IdOk;
  }

  lemma TaskHandles(s: State, a: Action, id: nat)
    requires IdOk(s, id) && CanStep(s, a) && !Opening(a) && !ForAudio(a) && !Concerns(a, id)
    ensures Handle(Step(s, a), id) == Handle(s, id)
  {
    hide Signal, Muted, Live;
  }

  lemma ClosingAudio(s: State, a: Action)
    requires IdsOk(s) && CanStep(s, a) && !Opening(a) && !a.AudioExits?
    ensures AudioMoves(s.audio, Handle(s, a.id), Step(s, a).audio, Handle(Step(s, a), a.id), a)
  {
    assert IdOk(s, a.id);
    if ForAudio(a) {
      CommandMoves(s, a);
    } else {
      TaskMoves(s, a);
    }
    hide Step, CanStep, Handle, IdsOk, IdOk, AudioMoves;
  }

  lemma CommandMoves(s: State, a: Action)
    requires CanStep(s, a) && ForAudio(a) && !a.AudioExits? && IdOk(s, a.id)
    ensures AudioMoves(s.audio, Handle(s, a.id), Step(s, a).audio, Handle(Step(s, a), a.id), a)
  {
    AudioStepIs(s, a);
    NewProducer(s, a);
    hide Step, CanStep, Signal, Muted, Live;
  }

  lemma NewProducer(s: State, a: Action)
    requires CanStep(s, a)
    ensures a.StartAudio? ==> a.a !in s.audio
  {
  }

  lemma TaskMoves(s: State, a: Action)
    requires CanStep(s, a) && !Opening(a) && !ForAudio(a)
    requires IdOk(s, a.id)
    ensures AudioMoves(s.audio, Handle(s, a.id), Step(s, a).audio, Handle(Step(s, a), a.id), a)
  {
    hide Signal, Muted, Live;
  }

  lemma HandlesStep(s: State, a: Action)
    requires IdsOk(s) && HandlesOk(s) && CanStep(s, a)
    ensures HandlesOk(Step(s, a))
  {
    forall id: nat ensures HandleOk(Step(s, a), id) {
      HandleStep(s, a, id);
    }
  }

  lemma HandleStep(s: State, a: Action, id: nat)
    requires IdsOk(s) && HandlesOk(s) && CanStep(s, a)
    ensures HandleOk(Step(s, a), id)
  {
    hide Step, CanStep, Handle, IdsOk;
    assert HandleOk(s, id);
    if a.AudioExits? {
      ClosingHandles(s, a, id);
      ExitKeeps(s, a);
    } else {
      assert HandleOk(s, a.id);
      if a.SpawnAudio? {
        SpawnHandles(s, a, id);
      } else if Opening(a) {
        OpeningHandles(s, a, id);
      } else {
        if id != a.id { ClosingHandles(s, a, id); }
        ClosingAudio(s, a);
      }
    }
  }

  lemma ExitKeeps(s: State, a: Action)
    requires CanStep(s, a) && a.AudioExits?
    ensures a.a in s.audio && Step(s, a).audio == s.audio[a.a := s.audio[a.a].(live := false)]
  {
  }

  lemma AudiosStep(s: State, a: Action)
    requires IdsOk(s) && HandlesOk(s) && AudiosOk(s) && CanStep(s, a)
    ensures AudiosOk(Step(s, a))
  {
    forall p: nat ensures AudioOk(Step(s, a), p) {
      AudioStep(s, a, p);
    }
  }

  lemma AudioStep(s: State, a: Action, p: nat)
    requires IdsOk(s) && HandlesOk(s) && AudiosOk(s) && CanStep(s, a)
    ensures AudioOk(Step(s, a), p)
  {
    hide Step, CanStep, Handle, IdsOk;
    assert AudioOk(s, p);
    var id := if p in s.audio then s.audio[p].session else 0;
    if a.AudioExits? {
      ClosingHandles(s, a, id);
      ExitKeeps(s, a);
    } else {
      assert HandleOk(s, a.id) && HandleOk(s, id);
      if a.SpawnAudio? {
        SpawnHandles(s, a, id);
        SpawnHandles(s, a, a.id);
      } else if Opening(a) {
        OpeningHandles(s, a, id);
      } else {
        if id != a.id { ClosingHandles(s, a, id); }
        ClosingAudio(s, a);
      }
    }
  }

  lemma StepInv(s: State, a: Action)
    requires Inv(s) && CanStep(s, a)
    ensures Inv(Step(s, a))
  {
    hide *;
    InvParts(s);
    IdsStep(s, a);
    TokensStep(s, a);
    HandlesStep(s, a);
    AudiosStep(s, a);
    InvParts(Step(s, a));
  }

  lemma InvParts(s: State)
    ensures Inv(s) <==> IdsOk(s) && TokensOk(s) && HandlesOk(s) && AudiosOk(s)
  {
    hide IdsOk, TokensOk, HandlesOk, AudiosOk;
  }

  // ---------------------------------------------------------------------
  // All interleavings
  // ---------------------------------------------------------------------

  predicate Legal(s: State, run: seq<Action>)
    decreases |run|
  {
    run == [] || (CanStep(s, run[0]) && Legal(Step(s, run[0]), run[1..]))
  }

  function End(s: State, run: seq<Action>): State
    requires Legal(s, run)
    decreases |run|
  {
    if run == [] then s else End(Step(s, run[0]), run[1..])
  }

  lemma {:induction false} RunInv(s: State, run: seq<Action>)
    requires Inv(s) && Legal(s, run)
    ensures Inv(End(s, run))
    decreases |run|
  {
    hide Inv, Step, CanStep;
    if run != [] {
      StepInv(s, run[0]);
      RunInv(Step(s, run[0]), run[1..]);
    }
  }

  ghost predicate Reachable(s: State) {
    exists run: seq<Action> :: Legal(INITIAL, run) && End(INITIAL, run) == s
  }

  lemma ReachableInv(s: State)
    requires Reachable(s)
    ensures Inv(s)
  {
    hide Step, CanStep;
    var run: seq<Action> :| Legal(INITIAL, run) && End(INITIAL, run) == s;
    assert Inv(INITIAL);
    RunInv(INITIAL, run);
  }

  /** Each token is redeemed at most once. */
  lemma TokensAttachOnce(s: State)
    requires Reachable(s)
    ensures forall i, j :: 0 <= i < j < |s.attached| ==> s.attached[i] != s.attached[j]
  {
    hide Step, CanStep;
    ReachableInv(s);
  }

  /** A running entry's video task has not ended past its own removal of the entry. */
  lemma NoEntryOutlivesItsTask(s: State, id: nat)
    requires Reachable(s) && id in s.sessions && s.sessions[id].Running?
    ensures id in s.video && s.video[id] != Gone
  {
    hide Step, CanStep;
    ReachableInv(s);
    assert IdOk(s, id);
  }

  /** At most one audio producer of a session is live and not yet told to stop. */
  lemma OneAudioProducer(s: State, a: nat, b: nat)
    requires Reachable(s) && a in s.audio && b in s.audio && s.audio[a].session == s.audio[b].session
    requires s.audio[a].live && !s.audio[a].signalled && s.audio[b].live && !s.audio[b].signalled
    ensures a == b
  {
    hide Step, CanStep;
    ReachableInv(s);
    assert AudioOk(s, a) && AudioOk(s, b);
  }

  /** Once a session's video task is gone and no stop call is under way, all its audio producers are told to stop. */
  lemma AudioEndsWithVideo(s: State, id: nat, a: nat)
    requires Reachable(s) && a in s.audio && s.audio[a].session == id && s.audio[a].live
    requires (id in s.video ==> s.video[id] == Gone) && id !in s.held
    ensures s.audio[a].signalled
  {
    hide Step, CanStep;
    ReachableInv(s);
    assert AudioOk(s, a) && IdOk(s, id) && HandleOk(s, id);
  }

  /** The producers of a session that are live and have not been told to stop. */
  ghost function Sounding(s: State, id: nat): set<nat> {
    set a | a in s.audio && s.audio[a].session == id && s.audio[a].live && !s.audio[a].signalled
  }

  /**
    What the audio commands achieve on a running session: `start_audio` leaves exactly one producer
    sounding, unmuted, and never replaces a live one; `stop_audio` leaves none.
  */
  lemma AudioCommands(s: State, id: nat, a: nat)
    requires Reachable(s) && id in s.sessions && s.sessions[id].Running? && a !in s.audio && s.lock.Free?
    ensures var started := Step(s, StartAudio(id, a));
            && Sounding(started, id) == (if Sounding(s, id) == {} then {a} else Sounding(s, id))
            && forall p :: p in Sounding(started, id) ==> !started.audio[p].muted
    ensures Sounding(Step(s, StopAudio(id)), id) == {}
  {
    ReachableInv(s);
    AudioStepInv(s, StartAudio(id, a));
    AudioStepInv(s, StopAudio(id));
    StartedAudio(s, id, a);
    StoppedAudio(s, id);
    hide Inv, Step, CanStep, Sounding, Handle, Live;
    SoundingIs(s, id);
    SoundingIs(Step(s, StartAudio(id, a)), id);
    SoundingIs(Step(s, StopAudio(id)), id);
  }

  /**
    Muting a running session sets the flag of what sounds there as asked, silences and starts nothing,
    and touches no other session's producer; a pending session notes nothing down.
  */
  lemma MutingCommands(s: State, id: nat, muted: bool)
    requires Reachable(s) && id in s.sessions && s.lock.Free?
    ensures var s' := Step(s, SetMute(id, muted));
            && Sounding(s', id) == Sounding(s, id) && s'.sessions == s.sessions && s'.audio.Keys == s.audio.Keys
            && (forall p :: p in Sounding(s, id) ==> s'.audio[p] == s.audio[p].(muted := muted))
            && (forall p :: p in s.audio && s.audio[p].session != id ==> s'.audio[p] == s.audio[p])
    ensures s.sessions[id].Pending? ==> Step(s, SetMute(id, muted)) == s
  {
    ReachableInv(s);
    assert IdOk(s, id) && HandleOk(s, id);
    SoundingIs(s, id);
    hide Inv, CanStep;
  }

  /** No audio command reaches another session. */
  lemma AudioStaysAtHome(s: State, a: Action, p: nat)
    requires Reachable(s) && CanStep(s, a) && (a.StartAudio? || a.StopAudio? || a.SetMute?)
    requires p in s.audio && s.audio[p].session != a.id
    ensures p in Step(s, a).audio && Step(s, a).audio[p] == s.audio[p]
    ensures forall other :: other in s.sessions && other != a.id ==>
              other in Step(s, a).sessions && Step(s, a).sessions[other] == s.sessions[other]
  {
    ReachableInv(s);
    assert HandleOk(s, a.id);
    hide Inv;
  }

  /** A producer that ends by itself stops sounding, and the next start gets a new one. */
  lemma AudioEndsAlone(s: State, p: nat)
    requires Reachable(s) && CanStep(s, AudioExits(p))
    ensures var s' := Step(s, AudioExits(p)); s'.sessions == s.sessions && !s'.audio[p].live
    ensures forall id :: Sounding(Step(s, AudioExits(p)), id) == Sounding(s, id) - {p}
  {
  }

  /** What is asked of a pending session is what the client gets when it attaches. */
  lemma PendingRemembers(s: State, id: nat, a: nat)
    requires id in s.sessions && s.sessions[id].Pending? && s.lock.Free? && a !in s.audio
    ensures var started := Step(s, StartAudio(id, a));
            && CanStep(started, Take(id, s.sessions[id].token))
            && Step(started, Take(id, s.sessions[id].token)).attaching[id] && started.audio == s.audio
    ensures var stopped := Step(s, StopAudio(id));
            && CanStep(stopped, Take(id, s.sessions[id].token))
            && !Step(stopped, Take(id, s.sessions[id].token)).attaching[id] && stopped.audio == s.audio
    ensures Step(s, Take(id, s.sessions[id].token)).attaching[id] == s.sessions[id].wantsAudio
  {
  }

  /** A started session can be taken with its own token, and asks for sound as it was started. */
  lemma StartThenTake(s: State, id: nat, token: nat, wantsAudio: bool)
    requires CanStep(s, Start(id, token, wantsAudio))
    ensures var started := Step(s, Start(id, token, wantsAudio));
            && started.audio == s.audio && started.video == s.video
            && (forall t :: CanStep(started, Take(id, t)) <==> t == token)
            && Step(started, Take(id, token)).attaching == s.attaching[id := wantsAudio]
            && Step(started, Take(id, token)).attached == s.attached + [token]
            && id !in Step(started, Take(id, token)).sessions
  {
  }

  lemma StartedAudio(s: State, id: nat, a: nat)
    requires Inv(s) && id in s.sessions && s.sessions[id].Running? && CanStep(s, StartAudio(id, a))
    ensures var s' := Step(s, StartAudio(id, a));
            && Live(s'.audio, Handle(s', id)) && !s'.audio[Handle(s', id).value].muted
            && Handle(s', id) == if Live(s.audio, Handle(s, id)) then Handle(s, id) else Some(a)
  {
    assert HandleOk(s, id);
    hide Inv, CanStep;
  }

  lemma StoppedAudio(s: State, id: nat)
    requires Inv(s) && id in s.sessions && s.sessions[id].Running? && CanStep(s, StopAudio(id))
    ensures Handle(Step(s, StopAudio(id)), id) == None
  {
    assert IdOk(s, id);
    hide Inv, Signal;
  }

  lemma AudioStepInv(s: State, a: Action)
    requires Inv(s) && CanStep(s, a)
    ensures Inv(Step(s, a))
  {
    hide *;
    StepInv(s, a);
  }

  /** At most the handle's producer is sounding. */
  lemma SoundingIs(s: State, id: nat)
    requires Inv(s)
    ensures Sounding(s, id) == if Live(s.audio, Handle(s, id)) then {Handle(s, id).value} else {}
  {
    hide Step, CanStep;
    assert HandleOk(s, id);
    forall a | a in Sounding(s, id) ensures Handle(s, id) == Some(a) {
      assert AudioOk(s, a);
    }
  }

  // ---------------------------------------------------------------------
  // The second lock section of attach
  // ---------------------------------------------------------------------

  /** The steps of the second lock section. */
  function RegisterRun(id: nat, wants: bool, a: nat): seq<Action> {
    [LockRegistry(id), SpawnVideo(id)] + (if wants then [SpawnAudio(id, a)] else []) + [Insert(id)]
  }

  function Registered(s: State, id: nat, wants: bool, a: nat): State {
    s.(attaching := Without(s.attaching, id), video := s.video[id := Streaming], lock := Free,
       sessions := s.sessions[id := Running(if wants then Some(a) else None)],
       audio := if wants then s.audio[a := AudioTask(id, true, false, false)] else s.audio)
  }

  lemma {:induction false} EndAppend(s: State, a: seq<Action>, b: seq<Action>)
    requires Legal(s, a) && Legal(End(s, a), b)
    ensures Legal(s, a + b) && End(s, a + b) == End(End(s, a), b)
    decreases |a|
  {
    hide CanStep, Step;
    if a == [] {
      assert a + b == b;
    } else {
      assert (a + b)[1..] == a[1..] + b;
      EndAppend(Step(s, a[0]), a[1..], b);
    }
  }

  lemma EndOne(s: State, a: Action)
    requires CanStep(s, a)
    ensures Legal(s, [a]) && End(s, [a]) == Step(s, a)
  {
    hide CanStep, Step;
    assert [a][1..] == [];
    assert Legal(Step(s, a), []);
  }

  lemma EndTwo(s: State, a: Action, b: Action)
    requires CanStep(s, a) && CanStep(Step(s, a), b)
    ensures Legal(s, [a, b]) && End(s, [a, b]) == Step(Step(s, a), b)
  {
    hide CanStep, Step;
    EndOne(s, a);
    EndOne(Step(s, a), b);
    EndAppend(s, [a], [b]);
    assert [a] + [b] == [a, b];
  }

  /** Undisturbed, the lock section opens the session. */
  lemma RegisterEnds(s: State, id: nat, a: nat)
    requires s.lock.Free? && id in s.attaching && a !in s.audio
    ensures var run := RegisterRun(id, s.attaching[id], a);
            Legal(s, run) && End(s, run) == Registered(s, id, s.attaching[id], a)
  {
    hide End, Legal;
    var wants := s.attaching[id];
    var s2 := Step(Step(s, LockRegistry(id)), SpawnVideo(id));
    EndTwo(s, LockRegistry(id), SpawnVideo(id));
    var start := [LockRegistry(id), SpawnVideo(id)];
    if wants {
      EndTwo(s2, SpawnAudio(id, a), Insert(id));
      EndAppend(s, start, [SpawnAudio(id, a), Insert(id)]);
      assert start + [SpawnAudio(id, a), Insert(id)] == RegisterRun(id, wants, a);
    } else {
      EndOne(s2, Insert(id));
      EndAppend(s, start, [Insert(id)]);
      assert start + [Insert(id)] == RegisterRun(id, wants, a);
    }
  }

  /** Attaching a client opens the session, with sound exactly if it was asked for. */
  lemma RegisterOpens(s: State, id: nat, a: nat)
    requires Reachable(s) && s.lock.Free? && id in s.attaching && a !in s.audio
    ensures var run := RegisterRun(id, s.attaching[id], a);
            && Legal(s, run)
            && var s' := End(s, run);
            && id in s'.sessions && s'.sessions[id].Running? && s'.lock.Free?
            && id in s'.video && s'.video[id] == Streaming
            && Sounding(s', id) == (if s.attaching[id] then {a} else {})
            && (s.attaching[id] ==> !s'.audio[a].muted)
            && forall p :: p in s.audio ==> p in s'.audio && s'.audio[p] == s.audio[p]
  {
    ReachableInv(s);
    RegisterEnds(s, id, a);
    RunInv(s, RegisterRun(id, s.attaching[id], a));
    hide Inv, Legal, End, RegisterRun;
    SoundingIs(Registered(s, id, s.attaching[id], a), id);
  }

  /** A running entry whose video task is gone: nothing will ever remove it. */
  predicate Orphaned(s: State, id: nat) {
    && id in s.ids && id in s.sessions && s.sessions[id].Running? && id in s.video && s.video[id] == Gone
    && id !in s.attaching && !(s.lock.Attach? && s.lock.id == id)
  }

  /**
    Why the lock is taken before the spawn: spawned first, a task that fails at once deregisters
    nothing and is gone, and the entry inserted afterwards is orphaned.
  */
  lemma SpawningFirstOrphans(s: State, id: nat)
    requires Reachable(s) && s.lock.Free? && id in s.attaching
    ensures var spawned := s.(video := s.video[id := Streaming]);
            && Legal(spawned, [VideoEnds(id), VideoRemoves(id)])
            && var failed := End(spawned, [VideoEnds(id), VideoRemoves(id)]);
            && failed.lock.Free? && id in failed.attaching
            && var inserted := failed.(lock := Free, attaching := Without(failed.attaching, id),
                                       sessions := failed.sessions[id := Running(None)]);
            Orphaned(inserted, id)
  {
    ReachableInv(s);
    assert IdOk(s, id);
    hide Inv, Legal, End;
    var spawned := s.(video := s.video[id := Streaming]);
    EndTwo(spawned, VideoEnds(id), VideoRemoves(id));
  }

  /** An orphan stays until somebody stops the session. */
  lemma OrphanStays(s: State, a: Action, id: nat)
    requires Orphaned(s, id) && CanStep(s, a) && a != Stop(id)
    ensures Orphaned(Step(s, a), id)
  {
    hide Step, CanStep;
    if ForAudio(a) {
      AudioPlaces(s, a, id);
    } else if Opening(a) {
      OrphanOpening(s, a, id);
    } else {
      OrphanClosing(s, a, id);
    }
  }

  lemma OrphanOpening(s: State, a: Action, id: nat)
    requires Orphaned(s, id) && CanStep(s, a) && Opening(a)
    ensures Orphaned(Step(s, a), id)
  {
  }

  lemma OrphanClosing(s: State, a: Action, id: nat)
    requires Orphaned(s, id) && CanStep(s, a) && !Opening(a) && !ForAudio(a) && a != Stop(id)
    ensures Orphaned(Step(s, a), id)
  {
    hide Live, Signal, Muted;
  }

  /** With the lock taken first there are no orphans, in any interleaving. */
  lemma NoOrphans(s: State, id: nat)
    requires Reachable(s)
    ensures !Orphaned(s, id)
  {
    hide Step, CanStep;
    ReachableInv(s);
    assert IdOk(s, id);
  }

  // ---------------------------------------------------------------------
  // Stopping
  // ---------------------------------------------------------------------

  /** A session id that is known but neither registered nor between the lock sections of attach. */
  predicate Finished(s: State, id: nat) {
    id in s.ids && id !in s.sessions && id !in s.attaching
  }

  lemma FinishedStays(s: State, a: Action, id: nat)
    requires CanStep(s, a) && Finished(s, id)
    ensures Finished(Step(s, a), id)
  {
    hide Step, CanStep;
    if ForAudio(a) {
      AudioPlaces(s, a, id);
    } else {
      FinishedMoves(s, a, id);
    }
  }

  lemma FinishedMoves(s: State, a: Action, id: nat)
    requires CanStep(s, a) && Finished(s, id) && !ForAudio(a)
    ensures Finished(Step(s, a), id)
  {
    hide Live, Signal, Muted;
  }

  lemma {:induction false} FinishedForever(s: State, run: seq<Action>, id: nat)
    requires Legal(s, run) && Finished(s, id)
    ensures Finished(End(s, run), id)
    decreases |run|
  {
    hide Step, CanStep, Finished;
    if run != [] {
      FinishedStays(s, run[0], id);
      FinishedForever(Step(s, run[0]), run[1..], id);
    }
  }

  /** Some continuation of `s` has the session registered, pending or running. */
  ghost predicate MayReturn(s: State, id: nat) {
    exists run: seq<Action> :: Legal(s, run) && id in End(s, run).sessions
  }

  lemma MaxKey(keys: set<nat>) returns (n: nat)
    ensures forall k :: k in keys ==> k < n
  {
    n := 0;
    var left := keys;
    while left != {}
      invariant left <= keys && forall k :: k in keys && k !in left ==> k < n
      decreases left
    {
      var k :| k in left;
      n := if k < n then n else k + 1;
      left := left - {k};
    }
  }

  /**
    A stop call on a known session ends it for good if and only if the call does not
    land between the two lock sections of an attach; there it changes nothing.
  */
  lemma StopIsFinalUnlessAttaching(s: State, id: nat)
    requires Reachable(s) && id in s.ids && s.lock.Free?
    ensures MayReturn(Step(s, Stop(id)), id) <==> id in s.attaching
    ensures id in s.attaching ==> Step(s, Stop(id)) == s
  {
    ReachableInv(s);
    assert IdOk(s, id);
    hide Inv, Legal, End, Registered, RegisterRun;
    if id in s.attaching {
      assert Without(s.sessions, id) == s.sessions;
      var a := MaxKey(s.audio.Keys);
      RegisterEnds(s, id, a);
      IdRegistered(s, id, s.attaching[id], a);
      assert Legal(s, RegisterRun(id, s.attaching[id], a));
    } else {
      NoReturn(Step(s, Stop(id)), id);
    }
  }

  lemma IdRegistered(s: State, id: nat, wants: bool, a: nat)
    ensures id in Registered(s, id, wants, a).sessions
  {
  }

  lemma NoReturn(s: State, id: nat)
    requires Finished(s, id)
    ensures !MayReturn(s, id)
  {
    hide Step, CanStep;
    forall run: seq<Action> | Legal(s, run) ensures id !in End(s, run).sessions {
      FinishedForever(s, run, id);
    }
  }
}
