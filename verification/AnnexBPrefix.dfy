/**
  A reader that has seen only the beginning of a serialised stream: exactly how many access
  units it has returned, and when the overflow reset can never fire.
*/
module AnnexBPrefix {
  import opened Common
  import opened AnnexB
  import opened AnnexBRuns
  import opened AnnexBRoundTrip
  import opened AnnexBStretches
  import opened AnnexBIdle

  /** How many bytes of an access unit show that it has begun: its start code and two bytes of NAL unit. */
  function Mark(unit: seq<Nal>): nat {
    if unit != [] && unit[0].longCode then 6 else 5
  }

  /** The stream of one unit and what follows it. */
  function Then(unit: seq<Nal>, next: seq<seq<Nal>>): seq<Byte> {
    Serialise(unit) + Bytes(next)
  }

  lemma ThenIs(unit: seq<Nal>, next: seq<seq<Nal>>)
    ensures Then(unit, next) == Serialise(unit + Flatten(next)) == Bytes([unit] + next)
  {
    hide Serialise;
    SerialiseAppend(unit, Flatten(next));
    assert ([unit] + next)[1..] == next;
  }

  lemma FlatFirst(next: seq<seq<Nal>>)
    requires AllAccessUnits(next)
    ensures AllWellFormed(Flatten(next))
    ensures next != [] ==> next[0] != [] && Flatten(next) != [] && Flatten(next)[0] == next[0][0] && next[0][0].Opens()
    ensures next == [] ==> Flatten(next) == []
  {
    hide Nal.WellFormed, Nal.Opens;
    FlattenWellFormed(next);
  }

  /** The NAL units of the whole stream and where the second access unit begins in it. */
  lemma WholeIndex(unit: seq<Nal>, next: seq<seq<Nal>>)
    requires IsAccessUnit(unit) && AllAccessUnits(next)
    ensures var all, e := Nals(Then(unit, next)), |Serialise(unit)|;
            && FirstCut(all) == (if next == [] then None else Some(|unit|))
            && (next != [] ==> |unit| < |all| && all[|unit|].start == e)
            && (next == [] ==> |all| == |unit|)
  {
    var nals := unit + Flatten(next);
    FlatFirst(next);
    hide IsAccessUnit, AllAccessUnits, Refs, Nals, FirstCut, Serialise, Nal.Opens, Nal.WellFormed;
    ThenIs(unit, next);
    Joined(unit, Flatten(next));
    NalsOfSerialised(nals);
    CutAfterUnit(unit, Flatten(next));
    if next != [] {
      RefStart(nals, 0, |unit|);
      assert nals[..|unit|] == unit;
    }
  }

  lemma Joined(unit: seq<Nal>, more: seq<Nal>)
    requires IsAccessUnit(unit) && AllWellFormed(more)
    ensures AllWellFormed(unit + more)
  {
    hide Nal.WellFormed, Nal.Opens;
  }

  /** The second unit's start code lies exactly `Mark` bytes before the point that shows it. */
  lemma CodeOfNext(unit: seq<Nal>, next: seq<seq<Nal>>)
    requires next != [] && AllAccessUnits(next)
    ensures var s, e := Then(unit, next), |Serialise(unit)|;
            StartCodeAt(s, e + Mark(next[0]) - 5) && (Mark(next[0]) == 6 ==> !StartCodeAt(s, e) && s[e] == 0)
  {
    FlatFirst(next);
    var nals := Flatten(next);
    var nal, e, s := nals[0], |Serialise(unit)|, Then(unit, next);
    assert AllWellFormed(nals) && nal.WellFormed();
    hide Serialise, AllAccessUnits, AllWellFormed, Flatten, Nal.Opens;
    assert Bytes(next) == nal.Bytes() + Serialise(nals[1..]) by { Unfolded(nals, 0); }
    assert forall i :: 0 <= i < |nal.Bytes()| ==> s[e + i] == nal.Bytes()[i];
  }

  /** A prefix of the stream has indexed the second unit exactly when it reaches the mark. */
  lemma IndexOfPrefix(unit: seq<Nal>, next: seq<seq<Nal>>, s: seq<Byte>)
    requires IsAccessUnit(unit) && AllAccessUnits(next) && s <= Then(unit, next)
    ensures Nals(s) <= Nals(Then(unit, next))
    ensures |Nals(s)| > |unit| <==> next != [] && |s| >= |Serialise(unit)| + Mark(next[0])
  {
    var whole, e := Then(unit, next), |Serialise(unit)|;
    hide Serialise, IsAccessUnit, AllAccessUnits, NalsBelow, Mark, Bytes, Then, FirstCut, Codes, Recorded;
    assert s + whole[|s|..] == whole;
    NalsGrow(s, whole[|s|..]);
    WholeIndex(unit, next);
    if next != [] {
      CodeOfNext(unit, next);
      MarkIs(next[0]);
      if |s| >= e + Mark(next[0]) {
        CodeRecorded(s, whole, e + Mark(next[0]) - 5, |unit|);
      }
      if |Nals(s)| > |unit| {
        NalWitness(s, |unit|);
        SameCode(s, whole, e);
      }
    }
  }

  lemma MarkIs(unit: seq<Nal>)
    ensures Mark(unit) == 5 || Mark(unit) == 6
  {
  }

  lemma SameCode(s: seq<Byte>, whole: seq<Byte>, p: nat)
    requires s <= whole
    ensures StartCodeAt(s, p) ==> StartCodeAt(whole, p)
    ensures p + 5 <= |s| && StartCodeAt(whole, p) ==> StartCodeAt(s, p)
  {
  }

  /** The start code of the NAL unit `n` of the whole, once it is all there, is recorded in the prefix. */
  lemma CodeRecorded(s: seq<Byte>, whole: seq<Byte>, p: nat, n: nat)
    requires s <= whole && Nals(s) <= Nals(whole) && p + 5 <= |s| && StartCodeAt(whole, p)
    requires n < |Nals(whole)|
    requires Nals(whole)[n].start == p || (Nals(whole)[n].start == p - 1 && !StartCodeAt(whole, p - 1))
    ensures n < |Nals(s)|
  {
    hide *;
    SameCode(s, whole, p);
    var i := RecordedAt(s, p);
    SameNal(s, whole, p);
    StartOf(whole, n, p);
    assert Located(Nals(whole), |whole|);
    Increasing(Nals(whole), i, n);
  }

  lemma RecordedAt(s: seq<Byte>, p: nat) returns (i: nat)
    requires StartCodeAt(s, p)
    ensures i < |Nals(s)| && Nals(s)[i] == NalAt(s, p)
  {
    hide StartCodeAt, NalsBelow, NalAt;
    CodeInside(s, p);
    var at := NalsExact(s, |s|);
    i :| 0 <= i < |at| && at[i] == p;
  }

  lemma CodeInside(s: seq<Byte>, p: nat)
    ensures StartCodeAt(s, p) ==> p < |s|
    ensures StartCodeAt(s, p) ==> !StartCodeAt(s, p + 1)
  {
  }

  /** The NAL unit that starts at `p`, or right before it with no start code of its own, is the one whose code is at `p`. */
  lemma StartOf(s: seq<Byte>, n: nat, p: nat)
    requires n < |Nals(s)| && StartCodeAt(s, p)
    requires Nals(s)[n].start == p || (Nals(s)[n].start == p - 1 && !StartCodeAt(s, p - 1))
    ensures Nals(s)[n] == NalAt(s, p)
  {
    hide StartCodeAt, NalsBelow, NalAt;
    var at := NalsExact(s, |s|);
    var q := at[n];
    assert StartCodeAt(s, q) && Nals(s)[n] == NalAt(s, q);
    NalStart(s, q);
    CodeInside(s, p);
    assert q == p;
  }

  lemma Increasing(nals: seq<NalRef>, i: nat, j: nat)
    requires exists limit :: Located(nals, limit)
    requires i < |nals| && j < |nals| && nals[i].start == nals[j].start
    ensures i == j
  {
  }

  lemma SameNal(s: seq<Byte>, whole: seq<Byte>, p: nat)
    requires s <= whole && StartCodeAt(s, p)
    ensures StartCodeAt(whole, p) && NalAt(s, p) == NalAt(whole, p)
  {
  }

  lemma NalStart(s: seq<Byte>, p: nat)
    requires StartCodeAt(s, p)
    ensures NalAt(s, p).start == p || NalAt(s, p).start == p - 1
  {
  }

  /** Before the mark of the second unit nothing is cut off. */
  lemma NotYetShown(unit: seq<Nal>, next: seq<seq<Nal>>, s: seq<Byte>)
    requires IsAccessUnit(unit) && AllAccessUnits(next) && s <= Then(unit, next)
    requires next != [] ==> |s| < |Serialise(unit)| + Mark(next[0])
    ensures Split(s) == Pieces([], s)
  {
    hide Serialise, IsAccessUnit, AllAccessUnits, Nals, Mark, Bytes, Then, Split;
    IndexOfPrefix(unit, next, s);
    WholeIndex(unit, next);
    NoCutIn(Nals(s), Nals(Then(unit, next)), |unit|);
    SplitNone(s);
  }

  lemma NoCutIn(nals: seq<NalRef>, longer: seq<NalRef>, n: nat)
    requires nals <= longer && |nals| <= n
    requires FirstCut(longer) == None || FirstCut(longer) == Some(n)
    ensures FirstCut(nals) == None
  {
    hide CutsAt;
    forall j | 0 <= j < |nals| ensures !CutsAt(nals, j) {
      SameCut(nals, longer, j);
    }
  }

  lemma SameCut(nals: seq<NalRef>, longer: seq<NalRef>, j: nat)
    requires nals <= longer && j < |nals|
    ensures CutsAt(nals, j) == CutsAt(longer, j)
  {
    assert nals[..j] == longer[..j];
  }

  lemma CutIn(nals: seq<NalRef>, longer: seq<NalRef>, n: nat)
    requires nals <= longer && n < |nals| && FirstCut(longer) == Some(n)
    ensures FirstCut(nals) == Some(n)
  {
    hide CutsAt;
    forall j | 0 <= j <= n ensures CutsAt(nals, j) == CutsAt(longer, j) {
      SameCut(nals, longer, j);
    }
    FirstCutIs(nals, n);
  }

  /** From the mark on, the first unit is cut off whole. */
  lemma Shown(unit: seq<Nal>, next: seq<seq<Nal>>, p: seq<Byte>)
    requires IsAccessUnit(unit) && AllAccessUnits(next) && next != []
    requires p <= Bytes(next) && |p| >= Mark(next[0])
    ensures Split(Serialise(unit) + p) == Pieces([Decoded(unit)] + Split(p).units, Split(p).rest)
  {
    hide *;
    var s, whole, e := Serialise(unit) + p, Then(unit, next), |Serialise(unit)|;
    PrefixOfThen(unit, next, p);
    IndexOfPrefix(unit, next, s);
    WholeIndex(unit, next);
    CutIn(Nals(s), Nals(whole), |unit|);
    SplitCut(s, |unit|);
    assert s[e..] == p;
    ShownUnit(unit, next, s);
  }

  lemma PrefixOfThen(unit: seq<Nal>, next: seq<seq<Nal>>, p: seq<Byte>)
    requires p <= Bytes(next)
    ensures Serialise(unit) + p <= Then(unit, next)
  {
    hide Serialise, Bytes;
  }

  lemma ShownUnit(unit: seq<Nal>, next: seq<seq<Nal>>, s: seq<Byte>)
    requires IsAccessUnit(unit) && AllAccessUnits(next) && s <= Then(unit, next)
    requires FirstCut(Nals(s)) == Some(|unit|)
    ensures |unit| < |Nals(s)| && 0 < |unit| && Located(Nals(s)[..|unit|], Nals(s)[|unit|].start)
    ensures UnitOf(s, Nals(s)[..|unit|], Nals(s)[|unit|].start) == Decoded(unit)
    ensures Nals(s)[|unit|].start == |Serialise(unit)|
  {
    hide *;
    var whole := Then(unit, next);
    IndexOfPrefix(unit, next, s);
    WholeIndex(unit, next);
    assert s + whole[|s|..] == whole;
    FirstUnitStable(s, whole[|s|..]);
    FirstUnitOfWhole(unit, next);
    HeadLocated(Nals(s), |unit|);
  }

  lemma HeadLocated(nals: seq<NalRef>, n: nat)
    requires n < |nals| && exists limit :: Located(nals, limit)
    ensures Located(nals[..n], nals[n].start)
  {
  }

  lemma FirstUnitOfWhole(unit: seq<Nal>, next: seq<seq<Nal>>)
    requires IsAccessUnit(unit) && AllAccessUnits(next)
    ensures var s, e := Then(unit, next), |Serialise(unit)|;
            && |unit| <= |Nals(s)| && 0 < |unit| && Located(Nals(s)[..|unit|], e) && e <= |s|
            && UnitOf(s, Nals(s)[..|unit|], e) == Decoded(unit)
  {
    FlatFirst(next);
    assert unit != [];
    hide Serialise, IsAccessUnit, AllAccessUnits, Nals, UnitOf, Decoded, Refs, Nal.WellFormed, Nal.Opens;
    ThenIs(unit, next);
    Joined(unit, Flatten(next));
    NalsOfSerialised(unit + Flatten(next));
    UnitOfSerialised(unit, Flatten(next));
  }

  /** After the bytes `s` of the stream exactly the first `k` units have been cut off. */
  ghost predicate Seen(s: seq<Byte>, units: seq<seq<Nal>>, k: nat) {
    && k <= |units| && |Bytes(units[..k])| <= |s|
    && (k + 1 < |units| ==> |s| < |Bytes(units[..k + 1])| + Mark(units[k + 1]))
  }

  /** Any beginning of a stream, read without flush: the units returned are those whose successor has shown. */
  lemma {:induction false} PrefixUnits(s: seq<Byte>, units: seq<seq<Nal>>) returns (k: nat)
    requires AllAccessUnits(units) && s <= Bytes(units)
    ensures k <= |units| && Seen(s, units, k)
    ensures k > 0 ==> k < |units| && |s| >= |Bytes(units[..k])| + Mark(units[k])
    ensures Split(s) == Pieces(DecodedAll(units[..k]), s[|Bytes(units[..k])|..])
    decreases |units|
  {
    hide Serialise, IsAccessUnit, Mark, Bytes, Then, Split, Decoded;
    BytesOfFew([]);
    k := 0;
    assert units[..0] == [];
    assert DecodedAll([]) == [] && s[0..] == s;
    if units == [] {
      SplitNothing();
    } else {
      var u, next := units[0], units[1..];
      assert units == [u] + next && IsAccessUnit(u);
      AllIn(units, 1, 1);
      ThenIs(u, next);
      FirstBytes(units);
      if next == [] || |s| < |Serialise(u)| + Mark(next[0]) {
        NotYetShown(u, next, s);
      } else {
        var p := s[|Serialise(u)|..];
        PrefixTail(s, Serialise(u), Bytes(next));
        Shown(u, next, p);
        var m := PrefixUnits(p, next);
        k := m + 1;
        OneMore(units, m);
        if m + 1 < |next| { OneMore(units, m + 1); }
        assert DecodedAll(units[..k]) == [Decoded(u)] + DecodedAll(next[..m]) by { DecodedAllAppend([u], next[..m]); }
        assert p[|Bytes(next[..m])|..] == s[|Bytes(units[..k])|..];
      }
    }
  }

  lemma FirstBytes(units: seq<seq<Nal>>)
    requires units != []
    ensures Then(units[0], units[1..]) == Serialise(units[0]) + Bytes(units[1..])
    ensures |Bytes(units[..1])| == |Serialise(units[0])|
  {
    hide Serialise;
    BytesOfFew(units[0]);
    assert units[..1] == [units[0]];
  }

  lemma PrefixTail(s: seq<Byte>, a: seq<Byte>, b: seq<Byte>)
    requires s <= a + b && |s| >= |a|
    ensures s == a + s[|a|..] && s[|a|..] <= b
  {
    assert s[..|a|] == (a + b)[..|a|] == a;
    assert forall i :: |a| <= i < |s| ==> s[i] == (a + b)[i] == b[i - |a|];
  }

  lemma OneMore(units: seq<seq<Nal>>, m: nat)
    requires units != [] && m < |units|
    ensures units[..m + 1] == [units[0]] + units[1..][..m]
    ensures |Bytes(units[..m + 1])| == |Serialise(units[0])| + |Bytes(units[1..][..m])|
  {
    hide Bytes, Serialise;
    assert units[..m + 1] == [units[0]] + units[1..][..m];
    BytesAppend([units[0]], units[1..][..m]);
    BytesOfFew(units[0]);
  }

  // ---------------------------------------------------------------------
  // The cap
  // ---------------------------------------------------------------------

  /** Every access unit, with the few bytes that show the next one, fits the buffer. */
  ghost predicate Fits(units: seq<seq<Nal>>) {
    forall i :: 0 <= i < |units| ==> |Serialise(units[i])| + 5 <= 8_388_608
  }

  lemma RestFits(s: seq<Byte>, units: seq<seq<Nal>>)
    requires AllAccessUnits(units) && Fits(units) && s <= Bytes(units)
    ensures |Split(s).rest| <= MAX_ANNEX_B_BUFFER
  {
    hide AllAccessUnits, Bytes, Split, Serialise, Mark;
    var k := PrefixUnits(s, units);
    if k < |units| {
      UpTo(units, k);
      if k + 1 < |units| { MarkIs(units[k + 1]); }
      if k + 1 == |units| { assert units[..k + 1] == units; }
    } else {
      assert units[..k] == units;
    }
  }

  lemma UpTo(units: seq<seq<Nal>>, k: nat)
    requires k < |units|
    ensures |Bytes(units[..k + 1])| == |Bytes(units[..k])| + |Serialise(units[k])|
  {
    hide Bytes, Serialise;
    assert units[..k + 1] == units[..k] + [units[k]];
    BytesAppend(units[..k], [units[k]]);
    BytesOfFew(units[k]);
  }

  /** Then no division into reads, with flushes between units, ever resets the reader. */
  lemma {:induction false} CapNeverHit(s: seq<Byte>, units: seq<seq<Nal>>, events: seq<Event>)
    requires AllAccessUnits(units) && Fits(units)
    requires s + Input(events) <= Bytes(units) && AtBoundaries(Stretches(s, events), units)
    ensures NoReset(Split(s).rest, events)
    decreases |events|
  {
    hide AllAccessUnits, Fits, Bytes, Split, Serialise, AtBoundaries, Pending, Flush;
    if events != [] {
      var e, more := Step(Split(s).rest, events[0]), events[1..];
      if events[0].Read? {
        var t := s + events[0].chunk;
        assert t + Input(more) == s + Input(events);
        assert t <= t + Input(more);
        RestFits(t, units);
        SplitResumes(s, events[0].chunk);
        CapNeverHit(t, units, more);
      } else {
        FlushKeeps(Split(s).rest);
        StepOnStretch(s, events[0]);
        assert [] + Input(more) == Input(events);
        if Pending(s) {
          var ss := Stretches(s, events);
          var k := FirstBoundary(ss, units);
          assert ss[1..] == Stretches([], more);
          BoundariesAfter(ss, units, k);
          AllIn(units, k, k);
          FitsAfter(units, k);
          BytesCut(units, k);
          PrefixTail(s + Input(more), s, Bytes(units[k..]));
          assert (s + Input(more))[|s|..] == Input(more);
          SplitNothing();
          CapNeverHit([], units[k..], more);
        } else {
          CapNeverHit(s, units, more);
        }
      }
    }
  }

  lemma FlushKeeps(rest: seq<Byte>)
    ensures Flush(rest).dropped == []
  {
  }

  lemma FitsAfter(units: seq<seq<Nal>>, k: nat)
    requires Fits(units) && k <= |units|
    ensures Fits(units[k..])
  {
    hide Serialise;
  }

  // ---------------------------------------------------------------------
  // Beginnings of a stream, with flushes
  // ---------------------------------------------------------------------

  /** The reads and flushes feed the beginning of a stream, flushes falling between units. */
  ghost predicate Feeds(events: seq<Event>, units: seq<seq<Nal>>) {
    && AllAccessUnits(units) && Fits(units) && Input(events) <= Bytes(units)
    && AtBoundaries(Stretches([], events), units)
  }

  lemma {:induction false} StretchesSeen(ss: seq<seq<Byte>>, units: seq<seq<Nal>>) returns (k: nat)
    requires ss != [] && AllAccessUnits(units) && Flatten(ss) <= Bytes(units) && AtBoundaries(ss, units)
    ensures k <= |units| && Seen(Flatten(ss), units, k)
    ensures ReleasedAll(ss[..|ss| - 1]) + Split(ss[|ss| - 1]).units == DecodedAll(units[..k])
    decreases |ss|
  {
    hide *;
    if |ss| == 1 {
      OneStretch(ss);
      k := PrefixUnits(ss[0], units);
    } else {
      var m := FirstBoundary(ss, units);
      var tail := ss[1..];
      AllIn(units, m, m);
      BytesCut(units, m);
      BoundariesAfter(ss, units, m);
      GroupReleased(units[..m]);
      TailParts(ss);
      PrefixTail(Flatten(ss), ss[0], Bytes(units[m..]));
      assert Flatten(ss)[|ss[0]|..] == Flatten(tail);
      var r := StretchesSeen(tail, units[m..]);
      k := m + r;
      SeenAfter(Flatten(tail), units, m, r);
      assert units[..k] == units[..m] + units[m..][..r];
      DecodedAllAppend(units[..m], units[m..][..r]);
    }
  }

  lemma OneStretch(ss: seq<seq<Byte>>)
    requires |ss| == 1
    ensures Flatten(ss) == ss[0] && ReleasedAll(ss[..0]) + Split(ss[0]).units == Split(ss[0]).units
  {
    hide Split;
    assert ss == [ss[0]];
    FlattenOne(ss[0]);
    NoStretches(ss);
  }

  lemma TailParts(ss: seq<seq<Byte>>)
    requires |ss| > 1
    ensures var tail, n := ss[1..], |ss| - 1;
            && tail[n - 1] == ss[n] && Flatten(ss) == ss[0] + Flatten(tail)
            && ReleasedAll(ss[..n]) + Split(ss[n]).units ==
               Released(ss[0]) + (ReleasedAll(tail[..n - 1]) + Split(tail[n - 1]).units)
  {
    hide *;
    var tail, n := ss[1..], |ss| - 1;
    TakeFirst(ss, n);
    TakeFirst(ss, |ss|);
    assert ss[..|ss|] == ss && tail[..n] == tail;
    Associate(Released(ss[0]), ReleasedAll(tail[..n - 1]), Split(ss[n]).units);
  }

  lemma Associate<T>(a: seq<T>, b: seq<T>, c: seq<T>)
    ensures a + b + c == a + (b + c)
  {
  }

  lemma SeenAfter(s: seq<Byte>, units: seq<seq<Nal>>, m: nat, r: nat)
    requires m <= |units| && Seen(s, units[m..], r)
    ensures Seen(Bytes(units[..m]) + s, units, m + r)
  {
    hide Bytes, Mark;
    Across(units, m, r);
    if m + r + 1 < |units| { Across(units, m, r + 1); }
  }

  lemma Across(units: seq<seq<Nal>>, m: nat, r: nat)
    requires m + r <= |units|
    ensures |Bytes(units[..m + r])| == |Bytes(units[..m])| + |Bytes(units[m..][..r])|
  {
    hide Bytes;
    assert units[..m + r] == units[..m] + units[m..][..r];
    BytesAppend(units[..m], units[m..][..r]);
  }

  /**
    However the pipe cuts the beginning of a stream, with idle flushes between units: the reader
    never overflows and has returned exactly the units that have shown, by a flush or a successor.
  */
  lemma FeedUnits(events: seq<Event>, units: seq<seq<Nal>>) returns (k: nat)
    requires Feeds(events, units)
    ensures k <= |units| && Seen(Input(events), units, k)
    ensures NoReset([], events) && Run([], events).units == DecodedAll(units[..k])
  {
    hide AllAccessUnits, Fits, Bytes, Split, AtBoundaries, DecodedAll, Seen, Stretches, NoReset, Run, ReleasedAll;
    SplitNothing();
    assert [] + Input(events) == Input(events);
    CapNeverHit([], units, events);
    RunByStretches([], events);
    k := StretchesSeen(Stretches([], events), units);
    assert [] + Run([], events).units == Run([], events).units;
  }

  /** The same for the whole stream and a last flush: all units, and an empty reader. */
  lemma FeedAll(events: seq<Event>, units: seq<seq<Nal>>)
    requires Feeds(events, units) && Input(events) == Bytes(units)
    ensures Run([], events + [Idle]) == Pieces(DecodedAll(units), [])
  {
    hide AllAccessUnits, Fits, Bytes, Split, AtBoundaries, DecodedAll, Stretches, NoReset, Run;
    SplitNothing();
    assert [] + Input(events) == Input(events);
    CapNeverHit([], units, events);
    IdleExactly(units, events);
  }

  /** The round trip in terms of the input alone: any division into reads of units that fit the cap. */
  lemma AnyDivision(units: seq<seq<Nal>>, events: seq<Event>)
    requires AllAccessUnits(units) && Fits(units) && OnlyReads(events) && Input(events) == Bytes(units)
    ensures Run([], events + [Idle]) == Pieces(DecodedAll(units), [])
  {
    hide AllAccessUnits, Fits, Bytes, DecodedAll, Run, IsBoundary;
    StretchesOfReads([], events, []);
    assert events + [] == events && [] + Input(events) == Input(events);
    assert Stretches([], events) == [Input(events)];
    TwoStretches(Input(events), [], units);
    assert Input(events) + [] == Input(events);
    FeedAll(events, units);
  }
}
