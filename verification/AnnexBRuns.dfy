/**
  Whole runs of the Annex-B reader: reads cut at arbitrary points, idle flushes
  and overflow resets. A settled reader is determined by the bytes it retains.
*/
module AnnexBRuns {
  import opened Common
  import opened AnnexB

  datatype Event = Read(chunk: seq<Byte>) | Idle

  /** What one event does: bytes skipped before the first start code, units released, bytes reset away. */
  datatype Effect = Effect(skipped: seq<Byte>, units: seq<AccessUnit>, dropped: seq<Byte>, rest: seq<Byte>)

  ghost predicate Settled(rest: seq<Byte>) {
    FirstCut(Nals(rest)) == None
  }

  /** Offset of the first recorded start code. */
  function Lead(buf: seq<Byte>): (n: nat)
    ensures n <= |buf|
  {
    if Nals(buf) == [] then 0 else Nals(buf)[0].start
  }

  function Data(units: seq<AccessUnit>): seq<Byte> {
    if units == [] then [] else units[0].data + Data(units[1..])
  }

  lemma {:induction false} DataAppend(a: seq<AccessUnit>, b: seq<AccessUnit>)
    ensures Data(a + b) == Data(a) + Data(b)
  {
    if a == [] {
      assert a + b == b;
    } else {
      assert (a + b)[1..] == a[1..] + b;
      DataAppend(a[1..], b);
    }
  }

  function Push(rest: seq<Byte>, chunk: seq<Byte>): Effect {
    var buf := rest + chunk;
    var p := Split(buf);
    var skipped := if p.units == [] then [] else buf[..Lead(buf)];
    if |p.rest| > MAX_ANNEX_B_BUFFER then Effect(skipped, p.units, p.rest, []) else Effect(skipped, p.units, [], p.rest)
  }

  function Flush(rest: seq<Byte>): Effect {
    if HasSlice(Nals(rest)) then Effect(rest[..Lead(rest)], [UnitOf(rest, Nals(rest), |rest|)], [], [])
    else Effect([], [], [], rest)
  }

  function Step(rest: seq<Byte>, event: Event): Effect {
    match event
    case Read(chunk) => Push(rest, chunk)
    case Idle => Flush(rest)
  }

  function Run(rest: seq<Byte>, events: seq<Event>): Pieces
    decreases |events|
  {
    if events == [] then Pieces([], rest)
    else
      var e := Step(rest, events[0]);
      var later := Run(e.rest, events[1..]);
      Pieces(e.units + later.units, later.rest)
  }

  function Input(events: seq<Event>): seq<Byte> {
    if events == [] then []
    else (if events[0].Read? then events[0].chunk else []) + Input(events[1..])
  }

  lemma {:induction false} InputAppend(a: seq<Event>, b: seq<Event>)
    ensures Input(a + b) == Input(a) + Input(b)
  {
    if a == [] {
      assert a + b == b;
    } else {
      assert (a + b)[1..] == a[1..] + b;
      InputAppend(a[1..], b);
    }
  }

  /** The run's output with the bytes it gave up put back where they were. */
  function Account(rest: seq<Byte>, events: seq<Event>): seq<Byte>
    decreases |events|
  {
    if events == [] then []
    else
      var e := Step(rest, events[0]);
      e.skipped + Data(e.units) + e.dropped + Account(e.rest, events[1..])
  }

  /** How many bytes the run gave up. */
  function Loss(rest: seq<Byte>, events: seq<Event>): nat
    decreases |events|
  {
    if events == [] then 0
    else
      var e := Step(rest, events[0]);
      |e.skipped| + |e.dropped| + Loss(e.rest, events[1..])
  }

  predicate OnlyReads(events: seq<Event>) {
    forall e :: e in events ==> e.Read?
  }

  /** The run only reads and never resets on overflow. */
  ghost predicate Undisturbed(rest: seq<Byte>, events: seq<Event>)
    decreases |events|
  {
    events == [] || (events[0].Read? && Push(rest, events[0].chunk).dropped == []
                     && Undisturbed(Push(rest, events[0].chunk).rest, events[1..]))
  }

  // ---------------------------------------------------------------------
  // Chunk invariance
  // ---------------------------------------------------------------------

  /** Any division of a byte stream into reads gives the units, and the reader, of one big read. */
  lemma {:induction false} ChunkInvariance(rest: seq<Byte>, events: seq<Event>)
    requires Settled(rest)
    requires Undisturbed(rest, events)
    ensures Run(rest, events) == Split(rest + Input(events))
    ensures events != [] ==> Run(rest, events) == Run(rest, [Read(Input(events))])
    decreases |events|
  {
    hide Split, Nals, FirstCut;
    if events == [] {
      SplitNone(rest);
      assert rest + Input(events) == rest;
    } else {
      var chunk, more := events[0].chunk, Input(events[1..]);
      var first := Split(rest + chunk);
      SplitRest(rest + chunk);
      ChunkInvariance(first.rest, events[1..]);
      SplitResumes(rest + chunk, more);
      RunKeepsCap(rest, events);
      assert rest + chunk + more == rest + Input(events);
      OneBigRead(rest, Input(events));
    }
  }

  lemma OneBigRead(rest: seq<Byte>, chunk: seq<Byte>)
    requires |Split(rest + chunk).rest| <= MAX_ANNEX_B_BUFFER
    ensures Run(rest, [Read(chunk)]) == Split(rest + chunk)
  {
    hide Split;
    var one := [Read(chunk)];
    assert one[1..] == [];
    assert Run(rest, one).units == Split(rest + chunk).units + [];
  }

  lemma RunOfReads(events: seq<Event>)
    requires Undisturbed([], events)
    ensures Run([], events) == Split(Input(events))
  {
    ChunkInvariance([], events);
    assert [] + Input(events) == Input(events);
  }

  /**
    A reader that is waiting for the next cut keeps exactly 8 MiB and forgets all of it at one byte more;
    the units of that read are returned all the same.
  */
  lemma ResetExactly(rest: seq<Byte>, chunk: seq<Byte>)
    ensures |Split(rest + chunk).rest| <= 8_388_608 <==> Run(rest, [Read(chunk)]) == Split(rest + chunk)
    ensures |Split(rest + chunk).rest| > 8_388_608 <==>
            Run(rest, [Read(chunk)]) == Pieces(Split(rest + chunk).units, []) && Split(rest + chunk).rest != []
  {
    var one := [Read(chunk)];
    var e := Push(rest, chunk);
    assert one[1..] == [] && e.units + [] == e.units;
    hide Split;
  }

  /** No push leaves more than 8 MiB buffered. */
  lemma {:induction false} RunKeepsCap(rest: seq<Byte>, events: seq<Event>)
    ensures |Run(rest, events).rest| <= (if |rest| > 8_388_608 then |rest| else 8_388_608)
    ensures events != [] && events[0].Read? ==> |Run(rest, events).rest| <= 8_388_608
    decreases |events|
  {
    if events != [] {
      RunKeepsCap(Step(rest, events[0]).rest, events[1..]);
    }
  }

  // ---------------------------------------------------------------------
  // Conservation
  // ---------------------------------------------------------------------

  /** The first unit starts at the first start code; what follows it starts with one too. */
  lemma SplitStep(buf: seq<Byte>)
    requires FirstCut(Nals(buf)).Some?
    ensures var end := Nals(buf)[FirstCut(Nals(buf)).value].start;
            && Lead(buf) < end <= |buf|
            && Split(buf).units != [] && Split(buf).units[0].data == buf[Lead(buf)..end]
            && Split(buf).units[1..] == Split(buf[end..]).units
            && Split(buf).rest == Split(buf[end..]).rest
            && Nals(buf[end..]) != [] && Lead(buf[end..]) == 0
  {
    var b := FirstCut(Nals(buf)).value;
    var end := Nals(buf)[b].start;
    NalsAfterCut(buf, b);
    assert Nals(buf)[b..][0] == Nals(buf)[b];
    assert Nals(buf[end..]) != [];
    assert Nals(buf[end..])[0].start + end == end;
  }

  lemma {:induction false} SplitConserves(buf: seq<Byte>)
    ensures Split(buf).units == [] ==> Split(buf).rest == buf
    ensures Split(buf).units != [] ==> buf == buf[..Lead(buf)] + (Data(Split(buf).units) + Split(buf).rest)
    ensures Nals(buf) != [] ==> Nals(Split(buf).rest) != []
    ensures Split(buf).units != [] ==> Lead(Split(buf).rest) == 0
    decreases |buf|
  {
    if FirstCut(Nals(buf)).Some? {
      var end := Nals(buf)[FirstCut(Nals(buf)).value].start;
      var tail := buf[end..];
      SplitStep(buf);
      SplitConserves(tail);
      Assemble(buf, Lead(buf), end, Data(Split(tail).units), Split(tail).rest);
    }
  }

  lemma Assemble(buf: seq<Byte>, lead: nat, end: nat, data: seq<Byte>, rest: seq<Byte>)
    requires lead <= end <= |buf| && buf[end..] == data + rest
    ensures buf == buf[..lead] + ((buf[lead..end] + data) + rest)
  {
    assert buf == buf[..lead] + (buf[lead..end] + buf[end..]);
    assert (buf[lead..end] + data) + rest == buf[lead..end] + (data + rest);
  }

  lemma FlushData(rest: seq<Byte>)
    requires HasSlice(Nals(rest))
    ensures Data(Flush(rest).units) == rest[Lead(rest)..]
  {
    assert Data(Flush(rest).units) == Flush(rest).units[0].data + Data([]);
  }

  lemma StepConserves(rest: seq<Byte>, event: Event)
    ensures var e := Step(rest, event);
            rest + Input([event]) == e.skipped + Data(e.units) + e.dropped + e.rest
  {
    hide Split, Nals, UnitOf, Lead, Data;
    assert Input([event]) == if event.Read? then event.chunk else [] by {
      assert [event][1..] == [];
    }
    if event.Read? {
      SplitConserves(rest + event.chunk);
      DataNone();
    } else if HasSlice(Nals(rest)) {
      FlushData(rest);
    } else {
      DataNone();
    }
  }

  lemma DataNone()
    ensures Data([]) == []
  {
  }

  /** Every byte fed in is in a unit, still buffered, skipped before a start code, or reset away: once, in order. */
  lemma {:induction false} Conservation(rest: seq<Byte>, events: seq<Event>)
    ensures rest + Input(events) == Account(rest, events) + Run(rest, events).rest
    decreases |events|
  {
    if events == [] {
      assert rest + Input(events) == rest;
    } else {
      var e := Step(rest, events[0]);
      var more := Input(events[1..]);
      StepConserves(rest, events[0]);
      Conservation(e.rest, events[1..]);
      var now := if events[0].Read? then events[0].chunk else [];
      assert Input([events[0]]) == now by {
        assert [events[0]][1..] == [];
      }
      Regroup(rest, now, more, e.skipped + Data(e.units) + e.dropped, e.rest,
              Account(e.rest, events[1..]), Run(rest, events).rest);
    }
  }

  lemma Regroup<T>(rest: seq<T>, now: seq<T>, more: seq<T>, front: seq<T>, mid: seq<T>, acc: seq<T>, end: seq<T>)
    requires rest + now == front + mid
    requires mid + more == acc + end
    ensures rest + (now + more) == front + acc + end
  {
    assert rest + (now + more) == (front + mid) + more == front + (mid + more);
    assert front + (acc + end) == front + acc + end;
  }

  /** The units hold everything except the loss. */
  lemma {:induction false} LossIsTheRest(rest: seq<Byte>, events: seq<Event>)
    ensures |Data(Run(rest, events).units)| + Loss(rest, events) == |Account(rest, events)|
    ensures Loss(rest, events) == 0 ==> Data(Run(rest, events).units) == Account(rest, events)
    decreases |events|
  {
    hide Step;
    if events != [] {
      var e := Step(rest, events[0]);
      LossIsTheRest(e.rest, events[1..]);
      DataAppend(e.units, Run(e.rest, events[1..]).units);
    }
  }

  /** A run reproduces its input exactly when it skipped and reset nothing. */
  lemma LosslessExactly(rest: seq<Byte>, events: seq<Event>)
    ensures var out := Run(rest, events);
            Data(out.units) + out.rest == rest + Input(events) <==> Loss(rest, events) == 0
  {
    Conservation(rest, events);
    LossIsTheRest(rest, events);
  }

  lemma DropFront<T>(s: seq<T>, n: nat, tail: seq<T>)
    requires n <= |s| && s == s[..n] + tail
    ensures s[n..] == tail
  {
    assert s == s[..n] + s[n..];
  }

  /** Without flush or overflow only the bytes before the stream's first start code go missing. */
  lemma ConservationOfReads(events: seq<Event>)
    requires Undisturbed([], events)
    ensures var s, out := Input(events), Run([], events);
            Data(out.units) + out.rest == if out.units == [] then s else s[Lead(s)..]
  {
    hide Run, Undisturbed, Input, Split, Nals, Lead, Data;
    var s := Input(events);
    RunOfReads(events);
    SplitConserves(s);
    DataNone();
    if Split(s).units != [] {
      DropFront(s, Lead(s), Data(Split(s).units) + Split(s).rest);
    }
  }

  /** A flush that releases a picture hands out everything from the first start code on. */
  lemma SegmentConserved(events: seq<Event>)
    requires Undisturbed([], events)
    requires HasSlice(Nals(Run([], events).rest))
    ensures var s, out := Input(events), Run([], events + [Idle]);
            out.rest == [] && Data(out.units) == s[Lead(s)..]
  {
    hide Run, Undisturbed, Input, Split, Nals;
    var s, mid := Input(events), Run([], events);
    RunThenFlush([], events);
    RunOfReads(events);
    SplitConserves(s);
    ConservationOfReads(events);
    var flush := Flush(mid.rest);
    DataAppend(mid.units, flush.units);
    FlushData(mid.rest);
    if mid.units != [] {
      assert mid.rest[0..] == mid.rest;
    }
  }

  /**
    An idle flush restarts the reader, so the next stretch of the stream again
    loses whatever comes before its own first start code.
  */
  lemma FlushRestarts(events: seq<Event>, next: seq<Event>)
    requires Undisturbed([], events) && Undisturbed([], next)
    requires HasSlice(Nals(Run([], events).rest))
    requires Run([], next).units != []
    ensures var out, s, t := Run([], events + [Idle] + next), Input(events), Input(next);
            && Data(out.units) + out.rest == s[Lead(s)..] + t[Lead(t)..]
            && (Data(out.units) + out.rest == s + t <==> Lead(s) == 0 && Lead(t) == 0)
  {
    hide *;
    var first, second := Run([], events + [Idle]), Run([], next);
    var s, t := Input(events), Input(next);
    RunAppend([], events + [Idle], next);
    SegmentConserved(events);
    ConservationOfReads(next);
    DataAppend(first.units, second.units);
    assert Data(first.units) + Data(second.units) + second.rest == Data(first.units) + (Data(second.units) + second.rest);
    DroppingNothing(s, Lead(s), t, Lead(t));
  }

  lemma DroppingNothing<T>(s: seq<T>, m: nat, t: seq<T>, n: nat)
    requires m <= |s| && n <= |t|
    ensures s[m..] + t[n..] == s + t <==> m == 0 && n == 0
  {
    assert |s[m..] + t[n..]| == |s + t| - m - n;
  }

  lemma {:induction false} RunAppend(rest: seq<Byte>, a: seq<Event>, b: seq<Event>)
    ensures var mid := Run(rest, a); var end := Run(mid.rest, b);
            Run(rest, a + b) == Pieces(mid.units + end.units, end.rest)
    decreases |a|
  {
    hide Step;
    if a == [] {
      assert a + b == b;
    } else {
      var e := Step(rest, a[0]);
      assert (a + b)[1..] == a[1..] + b;
      RunAppend(e.rest, a[1..], b);
      var mid := Run(e.rest, a[1..]);
      assert Run(rest, a) == Pieces(e.units + mid.units, mid.rest);
      var end := Run(mid.rest, b);
      assert e.units + (mid.units + end.units) == e.units + mid.units + end.units;
    }
  }

  lemma RunThenFlush(rest: seq<Byte>, events: seq<Event>)
    ensures var mid := Run(rest, events); var flush := Flush(mid.rest);
            Run(rest, events + [Idle]) == Pieces(mid.units + flush.units, flush.rest)
  {
    RunAppend(rest, events, [Idle]);
    assert [Idle][1..] == [];
    var flush := Flush(Run(rest, events).rest);
    assert Run(Run(rest, events).rest, [Idle]) == Pieces(flush.units + [], flush.rest);
  }
}
