/**
  Runs of the Annex-B reader with any number of idle flushes, in terms of the input alone:
  the stretches of bytes between the flushes that release a picture.
*/
module AnnexBStretches {
  import opened Common
  import opened AnnexB
  import opened AnnexBRuns

  /** No step of the run resets the reader on overflow. */
  ghost predicate NoReset(rest: seq<Byte>, events: seq<Event>)
    decreases |events|
  {
    events == [] || (Step(rest, events[0]).dropped == [] && NoReset(Step(rest, events[0]).rest, events[1..]))
  }

  /** A flush after the bytes `s` would find a picture to release. */
  predicate Pending(s: seq<Byte>) {
    HasSlice(Nals(Split(s).rest))
  }

  /** The input cut at every flush that releases a picture; `s` are the bytes since the last one. */
  function Stretches(s: seq<Byte>, events: seq<Event>): (ss: seq<seq<Byte>>)
    ensures ss != []
    decreases |events|
  {
    if events == [] then [s]
    else
      match events[0]
      case Read(chunk) => Stretches(s + chunk, events[1..])
      case Idle => if Pending(s) then [s] + Stretches([], events[1..]) else Stretches(s, events[1..])
  }

  /** The units of one stretch and its flush. */
  function Released(s: seq<Byte>): seq<AccessUnit> {
    Split(s).units + Flush(Split(s).rest).units
  }

  function ReleasedAll(ss: seq<seq<Byte>>): seq<AccessUnit> {
    if ss == [] then [] else Released(ss[0]) + ReleasedAll(ss[1..])
  }

  lemma {:induction false} ReleasedAllAppend(a: seq<seq<Byte>>, b: seq<seq<Byte>>)
    ensures ReleasedAll(a + b) == ReleasedAll(a) + ReleasedAll(b)
  {
    hide Released;
    if a == [] {
      assert a + b == b;
    } else {
      assert (a + b)[1..] == a[1..] + b;
      ReleasedAllAppend(a[1..], b);
    }
  }

  lemma ReleasedOne(s: seq<Byte>)
    ensures ReleasedAll([s]) == Released(s)
  {
    hide Released;
    assert ReleasedAll([s]) == Released(s) + ReleasedAll([]);
  }

  lemma SplitNothing()
    ensures Split([]) == Pieces([], [])
  {
  }

  /** One step in terms of the stretch so far. */
  lemma StepOnStretch(s: seq<Byte>, event: Event)
    requires Step(Split(s).rest, event).dropped == []
    ensures var e := Step(Split(s).rest, event);
            match event
            case Read(chunk) => Split(s + chunk) == Pieces(Split(s).units + e.units, e.rest)
            case Idle =>
              if Pending(s) then Split(s).units + e.units == Released(s) && e.rest == []
              else e.units == [] && e.rest == Split(s).rest
  {
    hide Split, Nals, UnitOf, Lead;
    if event.Read? {
      SplitResumes(s, event.chunk);
    }
  }

  lemma NothingMore(s: seq<Byte>)
    ensures Flatten([s]) == s && [s][..0] == [] && ReleasedAll([]) + Split(s).units == Split(s).units + []
    ensures s + [] == s
  {
    hide Split;
    FlattenOne(s);
  }

  lemma Unfold(s: seq<Byte>, events: seq<Event>)
    ensures events == [] ==> Stretches(s, events) == [s] && Input(events) == []
    ensures events == [] ==> Run(Split(s).rest, events) == Pieces([], Split(s).rest)
    ensures events != [] && NoReset(Split(s).rest, events) ==>
              var e, more := Step(Split(s).rest, events[0]), events[1..];
              && e.dropped == [] && NoReset(e.rest, more)
              && Run(Split(s).rest, events) == Pieces(e.units + Run(e.rest, more).units, Run(e.rest, more).rest)
              && Input(events) == (if events[0].Read? then events[0].chunk else []) + Input(more)
              && Stretches(s, events) == if events[0].Read? then Stretches(s + events[0].chunk, more)
                                         else if Pending(s) then [s] + Stretches([], more)
                                         else Stretches(s, more)
  {
    hide Split, Step, Pending;
  }

  /** A run releases the stretches cut off by its flushes, then what the last stretch completes. */
  lemma {:induction false} RunByStretches(s: seq<Byte>, events: seq<Event>)
    requires NoReset(Split(s).rest, events)
    ensures var ss, out := Stretches(s, events), Run(Split(s).rest, events);
            var last := ss[|ss| - 1];
            && Split(s).units + out.units == ReleasedAll(ss[..|ss| - 1]) + Split(last).units
            && out.rest == Split(last).rest
    ensures Flatten(Stretches(s, events)) == s + Input(events)
    ensures forall i :: 0 <= i < |Stretches(s, events)| - 1 ==> Pending(Stretches(s, events)[i])
    decreases |events|
  {
    hide *;
    var ss := Stretches(s, events);
    Unfold(s, events);
    if events == [] {
      NothingMore(s);
    } else {
      var e, more := Step(Split(s).rest, events[0]), events[1..];
      StepOnStretch(s, events[0]);
      if events[0].Read? {
        RunByStretches(s + events[0].chunk, more);
        assert s + events[0].chunk + Input(more) == s + Input(events);
        assert Split(s).units + (e.units + Run(e.rest, more).units) == Split(s).units + e.units + Run(e.rest, more).units;
      } else if Pending(s) {
        SplitNothing();
        RunByStretches([], more);
        Prepend(s, Stretches([], more));
        var tail := Stretches([], more);
        assert ss == [s] + tail;
        Shift(Split(s).units, e.units, Run([], more).units, Released(s), ReleasedAll(tail[..|tail| - 1]),
              Split(tail[|tail| - 1]).units);
        assert [] + Input(more) == Input(events);
      } else {
        RunByStretches(s, more);
        assert s + ([] + Input(more)) == s + Input(more);
        assert [] + Run(e.rest, more).units == Run(e.rest, more).units;
      }
    }
  }

  lemma Prepend(s: seq<Byte>, tail: seq<seq<Byte>>)
    requires tail != []
    ensures var ss, front := [s] + tail, tail[..|tail| - 1];
            && ReleasedAll(ss[..|ss| - 1]) == Released(s) + ReleasedAll(front) && ss[|ss| - 1] == tail[|tail| - 1]
            && Flatten(ss) == s + Flatten(tail)
  {
    hide Released;
    var ss, front := [s] + tail, tail[..|tail| - 1];
    assert ss[1..] == tail && ss[..|ss| - 1] == [s] + front;
    ReleasedAllAppend([s], front);
    ReleasedOne(s);
  }

  lemma Shift<T>(a: seq<T>, b: seq<T>, c: seq<T>, r: seq<T>, f: seq<T>, l: seq<T>)
    requires a + b == r && [] + c == f + l
    ensures a + (b + c) == r + f + l
  {
    assert a + (b + c) == (a + b) + c;
    assert r + f + l == r + (f + l);
  }

  /** With a last flush everything released is the stretches' units. */
  lemma RunWithLastFlush(events: seq<Event>)
    requires NoReset([], events)
    ensures var ss, out := Stretches([], events), Run([], events + [Idle]);
            out == Pieces(ReleasedAll(ss), Flush(Split(ss[|ss| - 1]).rest).rest)
  {
    hide Split, Step, Pending, Run, Flush, NoReset, Stretches;
    SplitNothing();
    RunByStretches([], events);
    RunThenFlush([], events);
    var ss := Stretches([], events);
    var front, last := ss[..|ss| - 1], ss[|ss| - 1];
    assert ss == front + [last];
    ReleasedAllAppend(front, [last]);
    ReleasedOne(last);
    var u, f := Run([], events).units, Flush(Split(last).rest).units;
    assert [] + u == u;
    assert ReleasedAll(front) + Split(last).units + f == ReleasedAll(front) + (Split(last).units + f);
  }

  // ---------------------------------------------------------------------
  // Conservation, exactly
  // ---------------------------------------------------------------------

  /** What one stretch hands out and keeps, without a flush and with one. */
  lemma StretchData(s: seq<Byte>)
    ensures Data(Split(s).units) + Split(s).rest == if Split(s).units == [] then s else s[Lead(s)..]
    ensures Pending(s) ==> Data(Released(s)) == s[Lead(s)..]
    ensures |Data(Released(s))| <= |s|
    ensures |Data(Released(s))| == |s| ==> Data(Released(s)) == s
  {
    hide Split, Nals, UnitOf, Data;
    SplitConserves(s);
    DataNone();
    var units, rest := Split(s).units, Split(s).rest;
    if units != [] {
      DropFront(s, Lead(s), Data(units) + rest);
    }
    DataAppend(units, Flush(rest).units);
    if Pending(s) {
      FlushData(rest);
      if units != [] {
        assert rest[0..] == rest;
      }
    } else {
      assert Released(s) == units + [] == units;
    }
  }

  /** The bytes a stretch loses: those before its first start code, once it has released a unit. */
  function LostIn(s: seq<Byte>, flushed: bool): nat {
    if flushed || Split(s).units != [] then Lead(s) else 0
  }

  /** Each stretch that releases a unit begins with a start code. */
  ghost predicate AllOpen(ss: seq<seq<Byte>>) {
    forall i :: 0 <= i < |ss| ==> OpenAt(ss, i)
  }

  predicate OpenAt(ss: seq<seq<Byte>>, i: nat)
    requires i < |ss|
  {
    LostIn(ss[i], i + 1 < |ss|) == 0
  }

  lemma AllOpenCons(ss: seq<seq<Byte>>)
    ensures AllOpen(ss) <==> ss == [] || (OpenAt(ss, 0) && AllOpen(ss[1..]))
  {
    hide LostIn;
    if ss == [] {
      return;
    }
    var tail := ss[1..];
    forall i | 0 <= i < |tail| ensures OpenAt(tail, i) == OpenAt(ss, i + 1) {
    }
    assert AllOpen(tail) ==> forall i :: 0 < i < |ss| ==> OpenAt(ss, i) by {
      if AllOpen(tail) {
        forall i | 0 < i < |ss| ensures OpenAt(ss, i) {
          assert OpenAt(tail, i - 1);
        }
      }
    }
  }

  /** The stretches without the bytes they lose. */
  function Trimmed(ss: seq<seq<Byte>>): seq<Byte> {
    if ss == [] then []
    else ss[0][LostIn(ss[0], |ss| > 1)..] + Trimmed(ss[1..])
  }

  lemma {:induction false} TrimmedExactly(ss: seq<seq<Byte>>)
    ensures |Trimmed(ss)| <= |Flatten(ss)| && (AllOpen(ss) ==> Trimmed(ss) == Flatten(ss))
    ensures |Trimmed(ss)| == |Flatten(ss)| ==> AllOpen(ss)
  {
    hide LostIn, AllOpen;
    AllOpenCons(ss);
    if ss != [] {
      LostBound(ss[0], |ss| > 1);
      var tail := ss[1..];
      TrimmedExactly(tail);
    }
  }

  lemma LostBound(s: seq<Byte>, flushed: bool)
    ensures LostIn(s, flushed) <= |s|
  {
  }

  lemma {:induction false} ReleasedTrimmed(ss: seq<seq<Byte>>)
    requires ss != [] && forall i :: 0 <= i < |ss| - 1 ==> Pending(ss[i])
    ensures var last := ss[|ss| - 1];
            Data(ReleasedAll(ss[..|ss| - 1])) + (Data(Split(last).units) + Split(last).rest) == Trimmed(ss)
  {
    hide Split, Released, Pending, Lead, Data;
    DataNone();
    var n := |ss| - 1;
    StretchData(ss[0]);
    if n == 0 {
      assert ss[..0] == [] && ss[1..] == [];
      assert ss[0][0..] == ss[0];
      assert Trimmed(ss) == ss[0][LostIn(ss[0], false)..] + [];
    } else {
      var tail := ss[1..];
      ReleasedTrimmed(tail);
      assert ss[..n] == [ss[0]] + tail[..n - 1];
      ReleasedAllAppend([ss[0]], tail[..n - 1]);
      ReleasedOne(ss[0]);
      DataAppend(Released(ss[0]), ReleasedAll(tail[..n - 1]));
      assert tail[n - 1] == ss[n];
      assert Trimmed(ss) == ss[0][Lead(ss[0])..] + Trimmed(tail);
    }
  }

  /**
    Conservation for every sequence of reads and flushes without an overflow reset: units and
    buffer are the input without the bytes in front of the first start code of each stretch that
    released a unit, so nothing is lost exactly when each of these begins with a start code.
  */
  lemma FlushConservation(events: seq<Event>)
    requires NoReset([], events)
    ensures var ss, out := Stretches([], events), Run([], events);
            && Flatten(ss) == Input(events)
            && Data(out.units) + out.rest == Trimmed(ss)
            && (Data(out.units) + out.rest == Input(events) <==> AllOpen(ss))
  {
    hide *;
    SplitNothing();
    RunByStretches([], events);
    var ss, out := Stretches([], events), Run([], events);
    var front, last := ss[..|ss| - 1], ss[|ss| - 1];
    ReleasedTrimmed(ss);
    TrimmedExactly(ss);
    assert [] + out.units == out.units && [] + Input(events) == Input(events);
    DataAppend(ReleasedAll(front), Split(last).units);
    assert Data(ReleasedAll(front)) + Data(Split(last).units) + out.rest ==
           Data(ReleasedAll(front)) + (Data(Split(last).units) + out.rest);
  }
}
