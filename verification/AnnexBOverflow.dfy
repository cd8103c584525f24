/**
  The overflow reset, exactly: which resets a run of reads can survive without its
  output differing from that of a reader with an unbounded buffer.
*/
module AnnexBOverflow {
  import opened Common
  import opened AnnexB
  import opened AnnexBRuns

  lemma {:induction false} FirstCutRaised(nals: seq<NalRef>, offset: nat, i: nat)
    requires i <= |nals|
    ensures FirstCutFrom(Raise(nals, offset), i) == FirstCutFrom(nals, i)
    decreases |nals| - i
  {
    if i < |nals| {
      var raised := Raise(nals, offset);
      assert HasSlice(raised[..i]) == HasSlice(nals[..i]) by {
        assert forall k :: 0 <= k < i ==> raised[..i][k].IsSlice() == nals[..i][k].IsSlice();
      }
      FirstCutRaised(nals, offset, i + 1);
    }
  }

  lemma {:induction false} ParameterBytesRaised(a: seq<Byte>, t: seq<Byte>, nals: seq<NalRef>, b: nat, end: nat)
    requires b <= |nals| && Located(nals, end) && end <= |t|
    ensures Located(Raise(nals, |a|), |a| + end)
    ensures ParameterBytes(a + t, Raise(nals, |a|), b, |a| + end) == ParameterBytes(t, nals, b, end)
  {
    hide NalsBelow;
    RaiseLocated(nals, |a|, end);
    if b > 0 {
      ParameterBytesRaised(a, t, nals, b - 1, end);
      var from, to := nals[b - 1].start, StopOf(nals, b - 1, end);
      assert from <= to <= end;
      hide Located;
      assert StopOf(Raise(nals, |a|), b - 1, |a| + end) == |a| + to;
      hide StopOf;
      SliceBehind(a, t, from, to);
    }
  }

  lemma RaiseLocated(nals: seq<NalRef>, offset: nat, end: nat)
    requires Located(nals, end)
    ensures Located(Raise(nals, offset), offset + end)
  {
  }

  lemma SliceBehind<T>(a: seq<T>, t: seq<T>, from: nat, to: nat)
    requires from <= to <= |t|
    ensures (a + t)[|a| + from..|a| + to] == t[from..to]
  {
  }

  lemma UnitRaised(a: seq<Byte>, t: seq<Byte>, nals: seq<NalRef>, end: nat)
    requires 0 < |nals| && Located(nals, end) && end <= |t|
    ensures Located(Raise(nals, |a|), |a| + end)
    ensures UnitOf(a + t, Raise(nals, |a|), |a| + end) == UnitOf(t, nals, end)
  {
    ParameterBytesRaised(a, t, nals, |nals|, end);
    var raised := Raise(nals, |a|);
    assert HasKey(raised) == HasKey(nals) by {
      assert forall k :: 0 <= k < |nals| ==> raised[k].kind == nals[k].kind;
    }
    hide ParameterBytes, HasKey;
    assert (a + t)[|a| + nals[0].start..|a| + end] == t[nals[0].start..end];
  }

  /** A recorded NAL unit that starts below `n` bounds the first one. */
  lemma FirstStartsBelow(s: seq<Byte>, n: nat)
    requires n <= |s|
    ensures NalsBelow(s, n) != [] ==> Lead(s) < n
    ensures n > 0 && StartCodeAt(s, n) && s[n - 1] == 0 ==> Lead(s) < n
  {
    NalsMonotone(s, n, |s|);
    assert NalsBelow(s, n) != [] ==> Nals(s)[0] == NalsBelow(s, n)[0];
    if n > 0 && StartCodeAt(s, n) && s[n - 1] == 0 {
      var at := NalsExact(s, |s|);
      var i :| 0 <= i < |at| && at[i] == n;
      assert Nals(s)[i].start == n - 1 && Nals(s)[0].start <= Nals(s)[i].start;
    }
  }

  /** Bytes in front that no recorded start code touches only shift the index. */
  lemma JunkIndex(a: seq<Byte>, t: seq<Byte>)
    requires Nals(a + t) != [] && Lead(a + t) >= |a|
    ensures Nals(a + t) == Raise(Nals(t), |a|)
  {
    FirstStartsBelow(a + t, |a|);
    CodeAtSeam(a, t);
    NalsConcat(a, t, |t|);
    hide NalsBelow;
    assert [] + Raise(Nals(t), |a|) == Raise(Nals(t), |a|);
  }

  lemma CodeAtSeam(a: seq<Byte>, t: seq<Byte>)
    ensures StartCodeAt(t, 0) ==> StartCodeAt(a + t, |a|)
  {
  }

  /** So a cut behind them is the same cut, and what is left is the same stream. */
  lemma JunkCut(a: seq<Byte>, t: seq<Byte>, b: nat)
    requires Nals(a + t) == Raise(Nals(t), |a|)
    requires FirstCut(Nals(t)) == Some(b) && FirstCut(Nals(a + t)) == Some(b)
    ensures Split(a + t) == Split(t)
  {
    hide *;
    var nals, end := Nals(t), Nals(t)[b].start;
    RaisePrefix(nals, |a|, b);
    LocatedPrefix(nals, |t|, b);
    UnitRaised(a, t, nals[..b], end);
    SplitCut(t, b);
    SplitCut(a + t, b);
    SliceBehind(a, t, end, |t|);
    assert (a + t)[|a| + end..] == (a + t)[|a| + end..|a| + |t|] && t[end..] == t[end..|t|];
  }

  lemma LocatedPrefix(nals: seq<NalRef>, limit: nat, b: nat)
    requires Located(nals, limit) && b < |nals|
    ensures Located(nals[..b], nals[b].start) && nals[b].start < limit
  {
  }

  /** So they change nothing once a unit is complete. */
  lemma JunkSkipped(a: seq<Byte>, t: seq<Byte>)
    requires Nals(a + t) != [] && Lead(a + t) >= |a|
    ensures Split(t).units != [] ==> Split(a + t) == Split(t)
    ensures Split(t).units == [] ==> Split(a + t).units == []
  {
    hide NalsBelow, HasSlice, UnitOf;
    JunkIndex(a, t);
    FirstCutRaised(Nals(t), |a|, 0);
    if FirstCut(Nals(t)).Some? {
      JunkCut(a, t, FirstCut(Nals(t)).value);
    }
  }

  lemma RaisePrefix(nals: seq<NalRef>, offset: nat, b: nat)
    requires b < |nals|
    ensures Raise(nals, offset)[..b] == Raise(nals[..b], offset)
    ensures Raise(nals, offset)[b].start == offset + nals[b].start
  {
  }

  /** How many bytes of the stream are in units or still buffered. */
  function Size(p: Pieces): nat {
    |Data(p.units)| + |p.rest|
  }

  lemma SizeOfSplit(buf: seq<Byte>)
    ensures Size(Split(buf)) == |buf| - if Split(buf).units == [] then 0 else Lead(buf)
  {
    hide Split, Lead;
    SplitConserves(buf);
    DataNone();
  }

  /** The bytes reset away held no start code, and a unit completes after them. */
  ghost predicate Harmless(dropped: seq<Byte>, later: seq<Byte>) {
    Split(later).units != [] && Nals(dropped + later) != [] && Lead(dropped + later) >= |dropped|
  }

  /** Forgetting buffered bytes never gains output, and is invisible exactly when it was harmless. */
  lemma ForgettingBytes(dropped: seq<Byte>, later: seq<Byte>)
    requires dropped != []
    ensures Size(Split(later)) <= Size(Split(dropped + later))
    ensures Harmless(dropped, later) ==> Split(dropped + later) == Split(later)
    ensures !Harmless(dropped, later) ==> Size(Split(later)) < Size(Split(dropped + later))
  {
    hide Split, Nals, Size, Lead;
    SizeOfSplit(later);
    SizeOfSplit(dropped + later);
    if Nals(dropped + later) != [] && Lead(dropped + later) >= |dropped| {
      JunkSkipped(dropped, later);
    } else {
      NoNalsNoUnits(dropped + later);
    }
  }

  lemma NoNalsNoUnits(buf: seq<Byte>)
    ensures Nals(buf) == [] ==> Split(buf).units == []
    ensures Nals(buf) == [] ==> Lead(buf) == 0
  {
  }

  /** Every overflow reset of the run is harmless. */
  ghost predicate HarmlessResets(rest: seq<Byte>, events: seq<Event>)
    decreases |events|
  {
    events == [] ||
    var e := Step(rest, events[0]);
    (e.dropped == [] || Harmless(e.dropped, Input(events[1..]))) && HarmlessResets(e.rest, events[1..])
  }

  lemma SizeJoin(a: seq<AccessUnit>, p: Pieces)
    ensures Size(Pieces(a + p.units, p.rest)) == |Data(a)| + Size(p)
  {
    DataAppend(a, p.units);
  }

  /** One read: what an unbounded reader would make of the whole, in terms of what this one keeps. */
  lemma ReadThen(rest: seq<Byte>, event: Event, more: seq<Byte>)
    requires event.Read?
    ensures var e := Step(rest, event); var kept := if e.dropped == [] then e.rest else e.dropped;
            var late := Split(kept + more);
            Split(rest + event.chunk + more) == Pieces(e.units + late.units, late.rest)
    ensures var e := Step(rest, event); e.dropped != [] ==> e.rest == []
  {
    hide Split;
    SplitResumes(rest + event.chunk, more);
  }

  /** Against an unbounded reader: never more output, and the same exactly when all resets are harmless. */
  lemma {:induction false} RunAgainstUnbounded(rest: seq<Byte>, events: seq<Event>)
    requires Settled(rest) && OnlyReads(events)
    ensures Size(Run(rest, events)) <= Size(Split(rest + Input(events)))
    ensures HarmlessResets(rest, events) ==> Run(rest, events) == Split(rest + Input(events))
    ensures !HarmlessResets(rest, events) ==> Size(Run(rest, events)) < Size(Split(rest + Input(events)))
    decreases |events|
  {
    hide Split, Nals, FirstCut, Step, Size, Harmless, Settled, Data;
    if events == [] {
      SettledSplit(rest);
      assert rest + Input(events) == rest;
    } else {
      assert events[0] in events && forall e :: e in events[1..] ==> e in events;
      var e, more := Step(rest, events[0]), Input(events[1..]);
      var kept := if e.dropped == [] then e.rest else e.dropped;
      ReadThen(rest, events[0], more);
      assert rest + events[0].chunk + more == rest + Input(events);
      SettledAfter(rest, events[0]);
      RunAgainstUnbounded(e.rest, events[1..]);
      SizeJoin(e.units, Run(e.rest, events[1..]));
      SizeJoin(e.units, Split(kept + more));
      if e.dropped != [] {
        ForgettingBytes(e.dropped, more);
        assert [] + more == more;
      }
    }
  }

  lemma SettledSplit(rest: seq<Byte>)
    requires Settled(rest)
    ensures Split(rest) == Pieces([], rest)
  {
    SplitNone(rest);
  }

  lemma SettledAfter(rest: seq<Byte>, event: Event)
    requires event.Read?
    ensures Settled(Step(rest, event).rest)
  {
    hide Split, NalsBelow;
    SplitRest(rest + event.chunk);
    assert Nals([]) == [] by { NothingIndexed(); }
  }

  lemma NothingIndexed()
    ensures Nals([]) == []
  {
  }

  /**
    Chunk invariance with the cap taken into account: reads return the units of the whole stream
    if and only if every overflow reset fell on bytes that no unit would have used.
  */
  lemma ExactChunkInvariance(events: seq<Event>)
    requires OnlyReads(events)
    ensures Run([], events) == Split(Input(events)) <==> HarmlessResets([], events)
  {
    hide Split, Run, HarmlessResets, Size;
    assert Settled([]) by { NothingIndexed(); }
    RunAgainstUnbounded([], events);
    assert [] + Input(events) == Input(events);
  }
}
