/** What every run of the stream socket puts on the wire, and what a client makes of it. */
module StreamSocketRuns {
  import opened Common
  import opened Envelopes
  import opened StreamSockets

  lemma {:induction false} RunInv(s: State, run: seq<Action>)
    requires Inv(s) && Legal(s, run)
    ensures Inv(End(s, run))
    decreases |run|
  {
    hide Inv, Step, CanStep;
    if run != [] {
      StepInv(s, run[0]);
      RunInv(Step(s, run[0]), run[1..]);
    }
  }

  lemma InitialInv()
    ensures Inv(INITIAL)
  {
    assert Logged([]) == [];
    assert Meant(INITIAL) == [];
  }

  /** What a client that has read the whole wire gets: the handshake line, the envelopes, the rest. */
  function Client(wire: seq<Byte>): (Option<seq<Byte>>, seq<Envelope>, seq<Byte>) {
    if |wire| >= 17 && wire[..17] in {MAGIC_V1, MAGIC_V2}
    then (Some(wire[..17]), DecodeAll(wire[17..]).0, DecodeAll(wire[17..]).1)
    else (None, [], wire)
  }

  ghost predicate AllFit(log: seq<(nat, Envelope)>) {
    forall i :: 0 <= i < |log| ==> Fits(log[i].1)
  }

  /** The client reads back exactly the handshake line and the logged envelopes, in log order. */
  predicate Reads(s: State) {
    Client(s.wire) == (if s.magicSent then Some(s.line) else None, Logged(s.log), [])
  }

  /**
    Over all interleavings: whenever nobody is writing, the client recovers exactly the
    envelopes written so far if and only if no failed or timed out write left a byte behind.
  */
  lemma WireExactly(run: seq<Action>)
    requires Legal(INITIAL, run) && End(INITIAL, run).holder.None?
    ensures var s := End(INITIAL, run);
            && (s.wire == Meant(s) <==> s.torn == 0)
            && (AllFit(s.log) ==> (Reads(s) <==> s.torn == 0))
  {
    hide Step, CanStep, Meant, Reads;
    InitialInv();
    RunInv(INITIAL, run);
    FreeWire(End(INITIAL, run));
  }

  lemma FreeWire(s: State)
    requires Inv(s) && s.holder.None?
    ensures s.wire == Meant(s) <==> s.torn == 0
    ensures AllFit(s.log) ==> (Reads(s) <==> s.torn == 0)
  {
    hide Meant, Client, Logged, AllFit;
    assert AllFit(s.log) && s.wire == Meant(s) ==> Reads(s) by {
      if AllFit(s.log) && s.wire == Meant(s) { MeantIsRead(s); }
    }
    assert Reads(s) ==> s.wire == Meant(s) by {
      if Reads(s) { ReadIsMeant(s); }
    }
    assert Meant(s) + [] == Meant(s);
  }

  lemma MeantIsRead(s: State)
    requires LineOk(s) && AllFit(s.log) && s.wire == Meant(s)
    ensures Reads(s)
  {
    FramesNothing();
    hide Frames, DecodeAll, Fits;
    DecodeFrames(Logged(s.log));
    if s.magicSent {
      assert s.wire[..17] == s.line && s.wire[17..] == Frames(Logged(s.log));
    } else {
      assert Logged(s.log) == [];
    }
  }

  lemma ReadIsMeant(s: State)
    requires LineOk(s) && Reads(s)
    ensures s.wire == Meant(s)
  {
    FramesNothing();
    hide Frames, DecodeAll, Fits;
    if s.magicSent {
      FramesOfDecoded(s.wire[17..]);
      assert s.wire == s.wire[..17] + s.wire[17..];
    } else {
      assert Logged(s.log) == [];
    }
  }

  lemma FramesNothing()
    ensures Frames([]) == []
  {
  }

  /** When no write fails the wire is well formed at every moment, also under a write in progress. */
  lemma NoFailuresNoTear(run: seq<Action>)
    requires Legal(INITIAL, run) && forall a :: a in run ==> !a.Fail?
    ensures var s := End(INITIAL, run); s.torn == 0 && s.wire == Meant(s) + Partial(s)
  {
    hide Step, CanStep, Meant, Partial;
    InitialInv();
    RunInv(INITIAL, run);
    TornOnlyByFailure(INITIAL, run);
  }

  lemma {:induction false} TornOnlyByFailure(s: State, run: seq<Action>)
    requires Legal(s, run) && forall a :: a in run ==> !a.Fail?
    ensures End(s, run).torn == s.torn
    decreases |run|
  {
    if run != [] {
      TornOnlyByFailure(Step(s, run[0]), run[1..]);
    }
  }

  /** The handshake line is written once: after it, no step changes it. */
  lemma {:induction false} OneHandshake(s: State, run: seq<Action>)
    requires Inv(s) && s.magicSent && Legal(s, run)
    ensures End(s, run).magicSent && End(s, run).line == s.line
    decreases |run|
  {
    if run != [] {
      StepInv(s, run[0]);
      assert TaskOk(s, run[0].t);
      OneHandshake(Step(s, run[0]), run[1..]);
    }
  }

  // ---------------------------------------------------------------------
  // Each task's own order
  // ---------------------------------------------------------------------

  /** The envelopes task `t` asked to have written, in the order of its calls. */
  function Asked(run: seq<Action>, t: nat): seq<Envelope> {
    if run == [] then []
    else (if run[0].CallSend? && run[0].t == t then [run[0].envelope] else []) + Asked(run[1..], t)
  }

  /** The envelope of task `t` that is still waiting or being written. */
  function Open(s: State, t: nat): seq<Envelope> {
    if !s.TaskOf(t).Idle? && s.TaskOf(t).job.Send? then [s.TaskOf(t).job.envelope] else []
  }

  predicate Completes(run: seq<Action>, t: nat) {
    forall a :: a in run ==> a != GiveUp(t) && a != Fail(t)
  }

  lemma ByMore(log: seq<(nat, Envelope)>, t: nat, e: (nat, Envelope))
    ensures By(log + [e], t) == By(log, t) + if e.0 == t then [e.1] else []
  {
    assert (log + [e])[..|log|] == log;
  }

  /** One step moves an envelope along its task's own queue, or drops the open one. */
  lemma OrderStep(s: State, a: Action, t: nat)
    requires Inv(s) && CanStep(s, a)
    ensures var s', before := Step(s, a), By(s.log, t) + Open(s, t) + Asked([a], t);
            By(s'.log, t) + Open(s', t) == if a == GiveUp(t) || a == Fail(t) then By(s.log, t) else before
  {
    hide By, WireOk, LineOk, Job.Bytes;
    assert TaskOk(s, a.t);
    assert TaskOk(s, t);
    if a.Finish? && s.TaskOf(a.t).job.Send? {
      ByMore(s.log, t, (a.t, s.TaskOf(a.t).job.envelope));
    }
  }

  lemma AskedCons(run: seq<Action>, t: nat)
    requires run != []
    ensures Asked(run, t) == Asked([run[0]], t) + Asked(run[1..], t)
  {
    assert Asked([run[0]][1..], t) == [];
  }

  /**
    Every task's envelopes reach the log in the order it asked for them; only calls that
    gave up or failed are missing.
  */
  lemma {:induction false} OwnOrder(s: State, run: seq<Action>, t: nat)
    requires Inv(s) && Legal(s, run)
    ensures var s', asked := End(s, run), By(s.log, t) + Open(s, t) + Asked(run, t);
            && Subsequence(By(s'.log, t) + Open(s', t), asked)
            && (Completes(run, t) ==> By(s'.log, t) + Open(s', t) == asked)
    decreases |run|
  {
    hide By, Open, Inv, Step, CanStep, Asked, Subsequence, Completes;
    if run == [] {
      AskedNothing(t);
      SubsequenceOfSelf(By(s.log, t) + Open(s, t));
      assert By(s.log, t) + Open(s, t) + [] == By(s.log, t) + Open(s, t);
    } else {
      StepInv(s, run[0]);
      OrderStep(s, run[0], t);
      AskedCons(run, t);
      CompletesCons(run, t);
      OwnOrder(Step(s, run[0]), run[1..], t);
      var b, o, h, r := By(s.log, t), Open(s, t), Asked([run[0]], t), Asked(run[1..], t);
      assert b + o + (h + r) == (b + o + h) + r;
      if run[0] == GiveUp(t) || run[0] == Fail(t) {
        StrikeOut(By(End(s, run).log, t) + Open(End(s, run), t), b, o, h, r);
      }
    }
  }

  lemma CompletesCons(run: seq<Action>, t: nat)
    requires run != []
    ensures Completes(run, t) <==> run[0] != GiveUp(t) && run[0] != Fail(t) && Completes(run[1..], t)
  {
    assert run[0] in run && forall a :: a in run[1..] ==> a in run;
    assert forall a :: a in run ==> a == run[0] || a in run[1..];
  }

  lemma StrikeOut<T>(x: seq<T>, b: seq<T>, o: seq<T>, h: seq<T>, r: seq<T>)
    requires Subsequence(x, b + r)
    ensures Subsequence(x, (b + o + h) + r)
  {
    hide Subsequence;
    SubsequenceOfSelf(b);
    SubsequenceExtend(b, b, o + h);
    assert b + (o + h) == b + o + h;
    SubsequenceAppend(b, b + o + h, r);
    SubsequenceTransitive(x, b + r, (b + o + h) + r);
  }

  lemma AskedNothing(t: nat)
    ensures Asked([], t) == []
  {
  }

  /** A run from the start: what task `t` wrote is what it asked for, in order, less its failures. */
  lemma Interleaving(run: seq<Action>, t: nat)
    requires Legal(INITIAL, run)
    ensures var s := End(INITIAL, run);
            && Subsequence(By(s.log, t), Asked(run, t))
            && (Completes(run, t) && s.TaskOf(t).Idle? ==> By(s.log, t) == Asked(run, t))
  {
    hide *;
    InitialInv();
    OwnOrder(INITIAL, run, t);
    var s := End(INITIAL, run);
    AtFirst(t);
    assert [] + [] + Asked(run, t) == Asked(run, t);
    SubsequenceOfSelf(By(s.log, t));
    SubsequenceExtend(By(s.log, t), By(s.log, t), Open(s, t));
    SubsequenceTransitive(By(s.log, t), By(s.log, t) + Open(s, t), Asked(run, t));
    OpenIdle(s, t);
    if s.TaskOf(t).Idle? {
      assert By(s.log, t) + Open(s, t) == By(s.log, t);
    }
  }

  lemma AtFirst(t: nat)
    ensures By(INITIAL.log, t) == [] && Open(INITIAL, t) == []
  {
  }

  lemma OpenIdle(s: State, t: nat)
    ensures s.TaskOf(t).Idle? ==> Open(s, t) == []
  {
  }

  /** `es` is `a` and `b` merged, each in its own order. */
  predicate Interleaves(es: seq<Envelope>, a: seq<Envelope>, b: seq<Envelope>)
    decreases |es|
  {
    if es == [] then a == [] && b == []
    else
      var n, last := |es| - 1, es[|es| - 1];
      || (a != [] && a[|a| - 1] == last && Interleaves(es[..n], a[..|a| - 1], b))
      || (b != [] && b[|b| - 1] == last && Interleaves(es[..n], a, b[..|b| - 1]))
  }

  lemma InterleavesLast(es: seq<Envelope>, a: seq<Envelope>, b: seq<Envelope>)
    requires es != [] && Interleaves(es, a, b)
    ensures var n, last := |es| - 1, es[|es| - 1];
            || (a != [] && a[|a| - 1] == last && Interleaves(es[..n], a[..|a| - 1], b))
            || (b != [] && b[|b| - 1] == last && Interleaves(es[..n], a, b[..|b| - 1]))
  {
  }

  lemma {:induction false} LogInterleaves(log: seq<(nat, Envelope)>)
    requires forall i :: 0 <= i < |log| ==> log[i].0 <= 1
    ensures Interleaves(Logged(log), By(log, 0), By(log, 1))
  {
    if log != [] {
      var n := |log| - 1;
      var a, b := By(log[..n], 0), By(log[..n], 1);
      LogInterleaves(log[..n]);
      assert Logged(log)[..n] == Logged(log[..n]);
      if log[n].0 == 0 {
        assert By(log, 0)[..|a|] == a && By(log, 1) == b + [] == b;
      } else {
        assert By(log, 1)[..|b|] == b && By(log, 0) == a + [] == a;
      }
    }
  }

  lemma {:induction false} OnlyTheseTasks(s: State, run: seq<Action>)
    requires Legal(s, run) && forall a :: a in run ==> a.t <= 1
    requires forall i :: 0 <= i < |s.log| ==> s.log[i].0 <= 1
    ensures forall i :: 0 <= i < |End(s, run).log| ==> End(s, run).log[i].0 <= 1
    decreases |run|
  {
    if run != [] {
      assert run[0] in run && forall a :: a in run[1..] ==> a in run;
      OnlyTheseTasks(Step(s, run[0]), run[1..]);
    }
  }

  /**
    Video is task 0 and audio task 1: without failed writes a client reads one handshake line,
    then a merge of the two envelope sequences. Video's is all it asked to have sent; audio's
    lacks only the packets it gave up waiting for.
  */
  lemma TwoProducers(run: seq<Action>)
    requires Legal(INITIAL, run) && (forall a :: a in run ==> a.t <= 1 && !a.Fail? && a != GiveUp(0))
    requires var s := End(INITIAL, run);
             s.magicSent && s.holder.None? && s.TaskOf(0).Idle? && s.TaskOf(1).Idle? && AllFit(s.log)
    ensures var (line, envelopes, rest) := Client(End(INITIAL, run).wire);
            && line in {Some(MAGIC_V1), Some(MAGIC_V2)} && rest == []
            && exists audio :: Interleaves(envelopes, Asked(run, 0), audio) && Subsequence(audio, Asked(run, 1))
  {
    hide Step, CanStep, Meant, By, Interleaves, Subsequence, Client, Asked, Logged, AllFit;
    var s := End(INITIAL, run);
    WireExactly(run);
    NoFailuresNoTear(run);
    OnlyTheseTasks(INITIAL, run);
    LogInterleaves(s.log);
    Interleaving(run, 0);
    Interleaving(run, 1);
    InitialInv();
    RunInv(INITIAL, run);
    assert Interleaves(Logged(s.log), Asked(run, 0), By(s.log, 1));
  }

  // ---------------------------------------------------------------------
  // One uncontended call
  // ---------------------------------------------------------------------

  function Call(t: nat, e: Envelope, accepted: nat): seq<Action> {
    if accepted < |FrameEnvelope(e)|
    then [CallSend(t, e), Acquire(t), Put(t, accepted), Fail(t)]
    else [CallSend(t, e), Acquire(t), Put(t, |FrameEnvelope(e)|), Finish(t)]
  }

  predicate Ready(s: State, t: nat) {
    s.magicSent && s.holder.None? && s.TaskOf(t).Idle?
  }

  lemma End4(s: State, a: Action, b: Action, c: Action, d: Action)
    requires CanStep(s, a) && CanStep(Step(s, a), b) && CanStep(Step(Step(s, a), b), c)
    requires CanStep(Step(Step(Step(s, a), b), c), d)
    ensures Legal(s, [a, b, c, d]) && End(s, [a, b, c, d]) == Step(Step(Step(Step(s, a), b), c), d)
  {
    hide CanStep, Step;
    assert [a, b, c, d][1..] == [b, c, d] && [b, c, d][1..] == [c, d] && [c, d][1..] == [d] && [d][1..] == [];
    var s3 := Step(Step(Step(s, a), b), c);
    assert Legal(Step(s3, d), []);
    assert Legal(s3, [d]) && End(s3, [d]) == Step(s3, d);
    assert Legal(Step(Step(s, a), b), [c, d]) && End(Step(Step(s, a), b), [c, d]) == Step(s3, d);
    assert Legal(Step(s, a), [b, c, d]) && End(Step(s, a), [b, c, d]) == Step(s3, d);
  }

  /** An uncontended call writes its envelope whole, or leaves the accepted bytes on the wire for good. */
  lemma CallEnds(s: State, t: nat, e: Envelope, accepted: nat)
    requires Ready(s, t)
    ensures Legal(s, Call(t, e, accepted))
    ensures var s', bytes := End(s, Call(t, e, accepted)), FrameEnvelope(e);
            if accepted < |bytes|
            then s' == s.With(t, Idle).(wire := s.wire + bytes[..accepted], torn := s.torn + accepted)
            else s' == s.With(t, Idle).(wire := s.wire + bytes, log := s.log + [(t, e)])
  {
    hide *;
    var bytes := FrameEnvelope(e);
    var n := if accepted < |bytes| then accepted else |bytes|;
    CallBegins(s, t, e);
    CallWrites(s, t, e, n);
    CallStops(s, t, e, n);
    CallIs(t, e, accepted);
    var last := if accepted < |bytes| then Fail(t) else Finish(t);
    End4(s, CallSend(t, e), Acquire(t), Put(t, n), last);
  }

  lemma CallIs(t: nat, e: Envelope, accepted: nat)
    ensures var n := |FrameEnvelope(e)|;
            Call(t, e, accepted) == if accepted < n then [CallSend(t, e), Acquire(t), Put(t, accepted), Fail(t)]
                                    else [CallSend(t, e), Acquire(t), Put(t, n), Finish(t)]
  {
    hide FrameEnvelope;
  }

  /** The call's task with the lock and `n` bytes on the wire. */
  function InCall(s: State, t: nat, e: Envelope, n: nat): State
    requires n <= |FrameEnvelope(e)|
  {
    s.With(t, Writing(Send(e), n)).(holder := Some(t), wire := s.wire + FrameEnvelope(e)[..n])
  }

  lemma CallBegins(s: State, t: nat, e: Envelope)
    requires Ready(s, t)
    ensures CanStep(s, CallSend(t, e)) && CanStep(Step(s, CallSend(t, e)), Acquire(t))
    ensures Step(Step(s, CallSend(t, e)), Acquire(t)) == InCall(s, t, e, 0)
  {
    hide FrameEnvelope;
    assert s.tasks[t := Waiting(Send(e))][t := Writing(Send(e), 0)] == s.tasks[t := Writing(Send(e), 0)];
    assert s.wire + FrameEnvelope(e)[..0] == s.wire;
  }

  lemma CallWrites(s: State, t: nat, e: Envelope, n: nat)
    requires n <= |FrameEnvelope(e)|
    ensures CanStep(InCall(s, t, e, 0), Put(t, n)) && Step(InCall(s, t, e, 0), Put(t, n)) == InCall(s, t, e, n)
  {
    hide FrameEnvelope;
    assert s.tasks[t := Writing(Send(e), 0)][t := Writing(Send(e), n)] == s.tasks[t := Writing(Send(e), n)];
    assert s.wire + FrameEnvelope(e)[..0] + FrameEnvelope(e)[0..n] == s.wire + FrameEnvelope(e)[..n];
  }

  lemma CallStops(s: State, t: nat, e: Envelope, n: nat)
    requires Ready(s, t) && n <= |FrameEnvelope(e)|
    ensures var bytes, now := FrameEnvelope(e), InCall(s, t, e, n);
            if n < |bytes|
            then CanStep(now, Fail(t)) &&
                 Step(now, Fail(t)) == s.With(t, Idle).(wire := s.wire + bytes[..n], torn := s.torn + n)
            else CanStep(now, Finish(t)) &&
                 Step(now, Finish(t)) == s.With(t, Idle).(wire := s.wire + bytes, log := s.log + [(t, e)])
  {
    hide FrameEnvelope;
    var bytes := FrameEnvelope(e);
    assert bytes[..|bytes|] == bytes;
    assert s.tasks[t := Writing(Send(e), n)][t := Idle] == s.tasks[t := Idle];
  }

  lemma {:induction false} EndAppend(s: State, a: seq<Action>, b: seq<Action>)
    requires Legal(s, a) && Legal(End(s, a), b)
    ensures Legal(s, a + b) && End(s, a + b) == End(End(s, a), b)
    decreases |a|
  {
    hide CanStep, Step;
    if a == [] {
      assert a + b == b;
    } else {
      assert (a + b)[1..] == a[1..] + b;
      EndAppend(Step(s, a[0]), a[1..], b);
    }
  }

  /**
    There is no poison flag: after a write that stops `n` bytes in, the stream stays open,
    the next envelope is written, and from then on no client reads the log back.
  */
  lemma TearIsPermanent(s: State, t: nat, u: nat, e: Envelope, v: Envelope, n: nat)
    requires Inv(s) && Ready(s, t) && Ready(s, u) && 0 < n < |FrameEnvelope(e)|
    requires AllFit(s.log) && Fits(v)
    ensures var run := Call(t, e, n) + Call(u, v, |FrameEnvelope(v)|);
            Legal(s, run) && End(s, run).log == s.log + [(u, v)] && End(s, run).holder.None? && !Reads(End(s, run))
  {
    hide FrameEnvelope, Inv, Call, Fits, Reads, Step, CanStep, End, Legal;
    CallEnds(s, t, e, n);
    RunInv(s, Call(t, e, n));
    var torn := End(s, Call(t, e, n));
    CallEnds(torn, u, v, |FrameEnvelope(v)|);
    RunInv(torn, Call(u, v, |FrameEnvelope(v)|));
    EndAppend(s, Call(t, e, n), Call(u, v, |FrameEnvelope(v)|));
    FreeWire(End(torn, Call(u, v, |FrameEnvelope(v)|)));
  }

  /** The source's object, between calls that do not overlap. */
  class StreamSocket {
    var magicSent: bool
    var wire: seq<Byte>
    ghost var line: seq<Byte>
    ghost var log: seq<(nat, Envelope)>
    ghost var torn: nat
    ghost var tasks: map<nat, Task>

    ghost function View(): State
      reads this
    {
      State(magicSent, wire, tasks, None, line, log, torn)
    }

    ghost predicate Valid()
      reads this
    {
      Inv(View())
    }

    constructor ()
      ensures Valid() && View() == INITIAL
    {
      magicSent, wire := false, [];
      line, log, torn, tasks := [], [], 0, map[];
      new;
      InitialInv();
    }

    method SendMagic(magic: seq<Byte>, accepted: nat) returns (ok: bool)
      requires Valid() && magic in {MAGIC_V1, MAGIC_V2}
      modifies this
      ensures Valid() && ok == (old(magicSent) || |magic| <= accepted) && magicSent == ok
      ensures wire == old(wire) + if old(magicSent) then [] else if ok then magic else magic[..accepted]
      ensures log == old(log) && torn == old(torn) + if ok then 0 else accepted
      ensures line == if old(magicSent) then old(line) else if ok then magic else []
    {
      ghost var before := View();
      if magicSent {
        return true;
      }
      ok := |magic| <= accepted;
      wire := wire + if ok then magic else magic[..accepted];
      if ok {
        magicSent, line := true, magic;
      } else {
        torn := torn + accepted;
      }
      HandshakeKeepsInv(before, View(), magic, accepted);
    }

    /** `None`: the lock was not free in time. `Some(ok)`: the write ended or stopped after `accepted` bytes. */
    method TryWriteEnvelope(ghost t: nat, e: Envelope, free: bool, accepted: nat) returns (r: Option<bool>)
      requires Valid() && Ready(View(), t)
      modifies this
      ensures Valid() && Ready(View(), t)
      ensures r == if !free then None else Some(|FrameEnvelope(e)| <= accepted)
      ensures r.None? ==> View() == old(View())
      ensures r.Some? ==> Legal(old(View()), Call(t, e, accepted)) && View() == End(old(View()), Call(t, e, accepted))
    {
      if !free {
        return None;
      }
      CallEnds(View(), t, e, accepted);
      RunInv(View(), Call(t, e, accepted));
      var buf := FrameEnvelope(e);
      tasks := tasks[t := Idle];
      if accepted < |buf| {
        wire, torn := wire + buf[..accepted], torn + accepted;
        return Some(false);
      }
      wire, log := wire + buf, log + [(t, e)];
      return Some(true);
    }
  }

  lemma HandshakeKeepsInv(s: State, s': State, magic: seq<Byte>, accepted: nat)
    requires Inv(s) && !s.magicSent && s.holder.None? && magic in {MAGIC_V1, MAGIC_V2}
    requires s' == if |magic| <= accepted then s.(magicSent := true, wire := s.wire + magic, line := magic)
                   else s.(wire := s.wire + magic[..accepted], torn := s.torn + accepted)
    ensures Inv(s')
  {
    assert Logged(s.log) == [];
    assert Frames([]) == [];
    forall t: nat ensures TaskOk(s', t) {
      assert TaskOk(s, t);
    }
  }
}
