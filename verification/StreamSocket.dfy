/**
  The stream socket of src/screen.rs, shared by the video and the audio producer:
  a lock, a once-only handshake line and whole envelopes. Every await point of
  every task is a step of its own, so runs range over all interleavings.
*/
module StreamSockets {
  import opened Common
  import opened Envelopes

  const MAGIC_V1: seq<Byte> := [87, 65, 89, 80, 65, 68, 95, 83, 84, 82, 69, 65, 77, 95, 86, 49, 10]
  const MAGIC_V2: seq<Byte> := [87, 65, 89, 80, 65, 68, 95, 83, 84, 82, 69, 65, 77, 95, 86, 50, 10]

  /** The handshake lines, spelled out. */
  lemma MagicLines()
    ensures MAGIC_V1 == Ascii("WAYPAD_STREAM_V1\n") && MAGIC_V2 == Ascii("WAYPAD_STREAM_V2\n")
  {
  }

  datatype Job = Handshake(line: seq<Byte>) | Send(envelope: Envelope) {
    function Bytes(): seq<Byte> {
      match this
      case Handshake(line) => line
      case Send(e) => FrameEnvelope(e)
    }
  }

  /** A task between calls, waiting for the lock, or holding it with `done` bytes written. */
  datatype Task = Idle | Waiting(job: Job) | Writing(job: Job, done: nat)

  /**
    `line` and `log` record what was written to the end, `torn` how many bytes
    failed or timed out writes left behind.
  */
  datatype State = State(magicSent: bool, wire: seq<Byte>, tasks: map<nat, Task>, holder: Option<nat>,
                         line: seq<Byte>, log: seq<(nat, Envelope)>, torn: nat) {
    function TaskOf(t: nat): Task {
      if t in tasks then tasks[t] else Idle
    }

    function With(t: nat, task: Task): State {
      this.(tasks := tasks[t := task])
    }
  }

  const INITIAL: State := State(false, [], map[], None, [], [], 0)

  datatype Action =
    | CallHandshake(t: nat, line: seq<Byte>)
    | CallSend(t: nat, envelope: Envelope)
    | GiveUp(t: nat)
    | Acquire(t: nat)
    | Put(t: nat, n: nat)
    | Finish(t: nat)
    | Fail(t: nat)

  predicate CanStep(s: State, a: Action) {
    match a
    // Both producers send only after seeing the handshake sent.
    case CallHandshake(t, line) => s.TaskOf(t).Idle? && line in {MAGIC_V1, MAGIC_V2}
    case CallSend(t, e) => s.TaskOf(t).Idle? && s.magicSent
    case GiveUp(t) => s.TaskOf(t).Waiting? && s.TaskOf(t).job.Send?
    case Acquire(t) => s.TaskOf(t).Waiting? && s.holder.None?
    case Put(t, n) => s.TaskOf(t).Writing? && s.TaskOf(t).done + n <= |s.TaskOf(t).job.Bytes()|
    case Finish(t) => s.TaskOf(t).Writing? && s.TaskOf(t).done == |s.TaskOf(t).job.Bytes()|
    case Fail(t) => s.TaskOf(t).Writing? && s.TaskOf(t).done < |s.TaskOf(t).job.Bytes()|
  }

  function Step(s: State, a: Action): State
    requires CanStep(s, a)
  {
    match a
    // `send_magic` looks at the flag before and after taking the lock.
    case CallHandshake(t, line) => if s.magicSent then s else s.With(t, Waiting(Handshake(line)))
    case CallSend(t, e) => s.With(t, Waiting(Send(e)))
    case GiveUp(t) => s.With(t, Idle)
    case Acquire(t) =>
      var job := s.TaskOf(t).job;
      if job.Handshake? && s.magicSent then s.With(t, Idle)
      else s.With(t, Writing(job, 0)).(holder := Some(t))
    case Put(t, n) =>
      var Writing(job, done) := s.TaskOf(t);
      s.With(t, Writing(job, done + n)).(wire := s.wire + job.Bytes()[done..done + n])
    case Finish(t) =>
      var job := s.TaskOf(t).job;
      var freed := s.With(t, Idle).(holder := None);
      (match job
       case Handshake(line) => freed.(magicSent := true, line := line)
       case Send(e) => freed.(log := s.log + [(t, e)]))
    case Fail(t) =>
      s.With(t, Idle).(holder := None, torn := s.torn + s.TaskOf(t).done)
  }

  // ---------------------------------------------------------------------
  // Runs
  // ---------------------------------------------------------------------

  predicate Legal(s: State, run: seq<Action>)
    decreases |run|
  {
    run == [] || (CanStep(s, run[0]) && Legal(Step(s, run[0]), run[1..]))
  }

  function End(s: State, run: seq<Action>): State
    requires Legal(s, run)
    decreases |run|
  {
    if run == [] then s else End(Step(s, run[0]), run[1..])
  }

  /** The envelopes task `t` finished writing, in its own order. */
  function Sent(s: State, run: seq<Action>, t: nat): seq<Envelope>
    requires Legal(s, run)
    decreases |run|
  {
    if run == [] then []
    else
      (if run[0] == Finish(t) && s.TaskOf(t).job.Send? then [s.TaskOf(t).job.envelope] else []) +
      Sent(Step(s, run[0]), run[1..], t)
  }

  function Logged(log: seq<(nat, Envelope)>): (es: seq<Envelope>)
    ensures |es| == |log|
    ensures forall i :: 0 <= i < |es| ==> es[i] == log[i].1
  {
    seq(|log|, i requires 0 <= i < |log| => log[i].1)
  }

  /** The part of the log that one task wrote. */
  function By(log: seq<(nat, Envelope)>, t: nat): seq<Envelope> {
    if log == [] then []
    else
      var n := |log| - 1;
      By(log[..n], t) + if log[n].0 == t then [log[n].1] else []
  }

  /** What a client is meant to read: one handshake line, then whole envelopes. */
  function Meant(s: State): seq<Byte> {
    s.line + Frames(Logged(s.log))
  }

  /** The bytes the lock holder has written of its current job. */
  function Partial(s: State): seq<Byte> {
    if s.holder.Some? && s.TaskOf(s.holder.value).Writing? &&
       s.TaskOf(s.holder.value).done <= |s.TaskOf(s.holder.value).job.Bytes()|
    then s.TaskOf(s.holder.value).job.Bytes()[..s.TaskOf(s.holder.value).done]
    else []
  }

  ghost predicate TaskOk(s: State, t: nat) {
    match s.TaskOf(t)
    case Idle => s.holder != Some(t)
    case Waiting(job) => s.holder != Some(t) && JobOk(s, job)
    case Writing(job, done) =>
      s.holder == Some(t) && JobOk(s, job) && done <= |job.Bytes()| && (job.Handshake? ==> !s.magicSent)
  }

  ghost predicate JobOk(s: State, job: Job) {
    match job
    case Handshake(line) => line in {MAGIC_V1, MAGIC_V2}
    case Send(_) => s.magicSent
  }

  ghost predicate TasksOk(s: State) {
    forall t: nat :: TaskOk(s, t)
  }

  ghost predicate LineOk(s: State) {
    if s.magicSent then s.line in {MAGIC_V1, MAGIC_V2} else s.line == [] && s.log == []
  }

  /** The wire is what it is meant to be, up to the bytes that failed writes tore off. */
  ghost predicate WireOk(s: State) {
    && |s.wire| == |Meant(s)| + |Partial(s)| + s.torn
    && (s.torn == 0 ==> s.wire == Meant(s) + Partial(s))
  }

  ghost predicate Inv(s: State) {
    TasksOk(s) && LineOk(s) && WireOk(s)
  }

  lemma StepInv(s: State, a: Action)
    requires Inv(s) && CanStep(s, a)
    ensures Inv(Step(s, a))
  {
    TasksStep(s, a);
    WireStep(s, a);
    hide Meant, Partial, WireOk;
    assert TaskOk(s, a.t);
  }

  lemma TasksStep(s: State, a: Action)
    requires TasksOk(s) && CanStep(s, a)
    ensures TasksOk(Step(s, a))
  {
    forall t: nat ensures TaskOk(Step(s, a), t) {
      assert TaskOk(s, t);
      assert TaskOk(s, a.t);
    }
  }

  /** What one step adds to the meant bytes, to the write under way and to the wire. */
  lemma Parts(s: State, a: Action)
    requires TasksOk(s) && LineOk(s) && CanStep(s, a)
    ensures var s' := Step(s, a);
            match a
            case Put(t, n) =>
              var Writing(job, done) := s.TaskOf(t);
              && Meant(s') == Meant(s) && s'.torn == s.torn
              && Partial(s) == job.Bytes()[..done] && Partial(s') == job.Bytes()[..done + n]
              && s'.wire == s.wire + job.Bytes()[done..done + n]
            case Finish(t) =>
              && Meant(s') == Meant(s) + Partial(s) && Partial(s') == [] && s'.wire == s.wire && s'.torn == s.torn
            case Fail(t) =>
              && Meant(s') == Meant(s) && Partial(s') == [] && s'.wire == s.wire && s'.torn == s.torn + |Partial(s)|
            case _ =>
              && Meant(s') == Meant(s) && Partial(s') == Partial(s) && s'.wire == s.wire && s'.torn == s.torn
  {
    hide Frames, FrameEnvelope;
    assert TaskOk(s, a.t);
    if s.holder.Some? {
      assert TaskOk(s, s.holder.value);
    }
    if a.Finish? {
      var job := s.TaskOf(a.t).job;
      assert job.Bytes()[..|job.Bytes()|] == job.Bytes();
      if job.Send? {
        LogMore(s, a.t, job.envelope);
      } else {
        FirstLine(job.line);
        assert Logged(s.log) == [];
      }
    }
  }

  lemma FirstLine(line: seq<Byte>)
    ensures [] + Frames([]) + line == line + Frames([])
  {
  }

  lemma LogMore(s: State, t: nat, e: Envelope)
    ensures s.line + Frames(Logged(s.log + [(t, e)])) == Meant(s) + FrameEnvelope(e)
  {
    assert Logged(s.log + [(t, e)]) == Logged(s.log) + [e];
    FramesAppend(Logged(s.log), [e]);
    FramesOne(e);
    hide Frames, FrameEnvelope;
  }

  lemma WireStep(s: State, a: Action)
    requires TasksOk(s) && LineOk(s) && WireOk(s) && CanStep(s, a)
    ensures WireOk(Step(s, a))
  {
    hide Meant, Partial, Step, TasksOk, LineOk, FrameEnvelope, Job.Bytes, State.TaskOf, WireOk, CanStep;
    Parts(s, a);
    WireParts(s);
    WireParts(Step(s, a));
    if a.Put? {
      PutParts(s, a);
    }
  }

  lemma WireParts(s: State)
    ensures WireOk(s) <==> |s.wire| == |Meant(s)| + |Partial(s)| + s.torn &&
                           (s.torn == 0 ==> s.wire == Meant(s) + Partial(s))
  {
    hide Meant, Partial;
  }

  lemma PutParts(s: State, a: Action)
    requires TasksOk(s) && LineOk(s) && CanStep(s, a) && a.Put?
    ensures exists more: seq<Byte> :: Step(s, a).wire == s.wire + more && Partial(Step(s, a)) == Partial(s) + more
  {
    hide Meant, Partial, Step, TasksOk, LineOk, FrameEnvelope;
    Parts(s, a);
    var Writing(job, done) := s.TaskOf(a.t);
    var bytes := job.Bytes();
    assert bytes[..done] + bytes[done..done + a.n] == bytes[..done + a.n];
  }
}
