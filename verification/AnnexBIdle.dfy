/**
  Idle flushes in a stream of access units: the reader still returns exactly the encoder's
  units if and only if every flush that releases something falls between two of them.
*/
module AnnexBIdle {
  import opened Common
  import opened AnnexB
  import opened AnnexBRuns
  import opened AnnexBRoundTrip
  import opened AnnexBStretches

  /** The bytes of a list of access units. */
  function Bytes(units: seq<seq<Nal>>): seq<Byte> {
    Serialise(Flatten(units))
  }

  lemma BytesAppend(a: seq<seq<Nal>>, b: seq<seq<Nal>>)
    ensures Bytes(a + b) == Bytes(a) + Bytes(b)
  {
    FlattenAppend(a, b);
    SerialiseAppend(Flatten(a), Flatten(b));
  }

  lemma BytesCut(units: seq<seq<Nal>>, k: nat)
    requires k <= |units|
    ensures Bytes(units) == Bytes(units[..k]) + Bytes(units[k..])
  {
    hide Bytes;
    assert units == units[..k] + units[k..];
    BytesAppend(units[..k], units[k..]);
  }

  lemma BytesOfFew(unit: seq<Nal>)
    ensures Bytes([]) == [] && Bytes([unit]) == Serialise(unit)
  {
    FlattenOne(unit);
  }

  lemma UnitHasBytes(unit: seq<Nal>)
    requires unit != []
    ensures |Serialise(unit)| > 0
  {
  }

  lemma {:induction false} DataOfDecoded(units: seq<seq<Nal>>)
    ensures Data(DecodedAll(units)) == Bytes(units)
  {
    hide Serialise, Decoded;
    if units == [] {
      BytesOfFew([]);
    } else {
      DataOfDecoded(units[1..]);
      assert DecodedAll(units)[1..] == DecodedAll(units[1..]);
      SerialiseAppend(units[0], Flatten(units[1..]));
      DecodedData(units[0]);
    }
  }

  lemma DecodedData(unit: seq<Nal>)
    ensures Decoded(unit).data == Serialise(unit)
  {
  }

  /** The bytes of the first `k` units, for some `k`. */
  ghost predicate IsBoundary(s: seq<Byte>, units: seq<seq<Nal>>) {
    exists k :: 0 <= k <= |units| && s == Bytes(units[..k])
  }

  /** Every stretch begins where a unit does. */
  ghost predicate AtBoundaries(ss: seq<seq<Byte>>, units: seq<seq<Nal>>) {
    forall j :: 0 <= j < |ss| ==> IsBoundary(Flatten(ss[..j]), units)
  }

  /** One group of whole units in one stretch. */
  lemma GroupReleased(units: seq<seq<Nal>>)
    requires AllAccessUnits(units)
    ensures Released(Bytes(units)) == DecodedAll(units) && Flush(Split(Bytes(units)).rest).rest == []
    ensures Split(Bytes(units)).units == if units == [] then [] else DecodedAll(units[..|units| - 1])
  {
    hide Split, Flush, DecodedAll, Serialise;
    if units == [] {
      BytesOfFew([]);
      NothingReleased();
    } else {
      SplitOfSerialised(units);
      LastUnit(units);
    }
  }

  lemma NothingReleased()
    ensures Released([]) == [] && Flush(Split([]).rest).rest == [] && Split([]).units == [] && DecodedAll([]) == []
  {
    SplitNothing();
  }

  /** A boundary of the stream past the first `k` units is a boundary of what follows them. */
  lemma BoundaryAfter(units: seq<seq<Nal>>, k: nat, s: seq<Byte>)
    requires AllAccessUnits(units) && k <= |units| && IsBoundary(Bytes(units[..k]) + s, units)
    ensures IsBoundary(s, units[k..])
  {
    hide Bytes, AllAccessUnits;
    var m :| 0 <= m <= |units| && Bytes(units[..k]) + s == Bytes(units[..m]);
    assert |Bytes(units[..m])| == |Bytes(units[..k])| + |s|;
    LongerPrefix(units, m, k);
    assert units[..m][..k] == units[..k] && units[..m][k..] == units[k..][..m - k];
    BytesCut(units[..m], k);
    Cancel(Bytes(units[..k]), s, Bytes(units[k..][..m - k]));
  }

  lemma Cancel<T>(a: seq<T>, b: seq<T>, c: seq<T>)
    requires a + b == a + c
    ensures b == c
  {
    assert b == (a + b)[|a|..] && c == (a + c)[|a|..];
  }

  lemma LongerPrefix(units: seq<seq<Nal>>, m: nat, k: nat)
    requires AllAccessUnits(units) && m <= |units| && k <= |units|
    ensures m < k <==> |Bytes(units[..m])| < |Bytes(units[..k])|
  {
    hide Bytes, AllAccessUnits;
    var low, high := if m < k then m else k, if m < k then k else m;
    assert units[..high][..low] == units[..low];
    BytesCut(units[..high], low);
    AllIn(units, high, low);
    SomeBytes(units[..high][low..]);
  }

  lemma AllIn(units: seq<seq<Nal>>, k: nat, m: nat)
    requires AllAccessUnits(units) && m <= k <= |units|
    ensures AllAccessUnits(units[..k]) && AllAccessUnits(units[k..]) && AllAccessUnits(units[..k][m..])
  {
    hide IsAccessUnit;
  }

  lemma SomeBytes(units: seq<seq<Nal>>)
    requires AllAccessUnits(units)
    ensures units != [] ==> |Bytes(units)| > 0
  {
    hide Serialise;
    if units != [] {
      UnitHasBytes(units[0]);
      SerialiseAppend(units[0], Flatten(units[1..]));
    }
  }

  /** The stretches after the first one, which holds `k` units, begin where units do. */
  lemma BoundariesAfter(ss: seq<seq<Byte>>, units: seq<seq<Nal>>, k: nat)
    requires |ss| > 1 && AllAccessUnits(units) && AtBoundaries(ss, units)
    requires k <= |units| && ss[0] == Bytes(units[..k])
    ensures AtBoundaries(ss[1..], units[k..])
  {
    hide Bytes, IsBoundary, AllAccessUnits;
    forall j | 0 <= j < |ss| - 1 ensures IsBoundary(Flatten(ss[1..][..j]), units[k..]) {
      assert ss[..j + 1] == [ss[0]] + ss[1..][..j];
      FlattenAppend([ss[0]], ss[1..][..j]);
      FlattenOne(ss[0]);
      assert IsBoundary(Flatten(ss[..j + 1]), units);
      BoundaryAfter(units, k, Flatten(ss[1..][..j]));
    }
  }

  lemma FirstBoundary(ss: seq<seq<Byte>>, units: seq<seq<Nal>>) returns (k: nat)
    requires |ss| > 1 && AtBoundaries(ss, units)
    ensures k <= |units| && ss[0] == Bytes(units[..k])
  {
    hide Bytes;
    assert ss[..1] == [ss[0]];
    FlattenOne(ss[0]);
    assert IsBoundary(Flatten(ss[..1]), units);
    k :| 0 <= k <= |units| && ss[0] == Bytes(units[..k]);
  }

  lemma ReleasedFirst(ss: seq<seq<Byte>>)
    requires ss != []
    ensures ReleasedAll(ss) == Released(ss[0]) + ReleasedAll(ss[1..]) && Flatten(ss) == ss[0] + Flatten(ss[1..])
  {
  }

  /** Stretches that begin where units do release exactly the units. */
  lemma {:induction false} GroupsReleased(ss: seq<seq<Byte>>, units: seq<seq<Nal>>)
    requires ss != [] && AllAccessUnits(units) && Flatten(ss) == Bytes(units) && AtBoundaries(ss, units)
    ensures ReleasedAll(ss) == DecodedAll(units) && Flush(Split(ss[|ss| - 1]).rest).rest == []
    decreases |ss|
  {
    hide *;
    if |ss| == 1 {
      assert ss == [ss[0]];
      FlattenOne(ss[0]);
      GroupReleased(units);
      ReleasedOne(ss[0]);
    } else {
      var k := FirstBoundary(ss, units);
      AllIn(units, k, k);
      BytesCut(units, k);
      ReleasedFirst(ss);
      Cancel(ss[0], Flatten(ss[1..]), Bytes(units[k..]));
      BoundariesAfter(ss, units, k);
      GroupReleased(units[..k]);
      GroupsReleased(ss[1..], units[k..]);
      assert units == units[..k] + units[k..];
      DecodedAllAppend(units[..k], units[k..]);
    }
  }

  lemma TakeFirst(ss: seq<seq<Byte>>, j: nat)
    requires 0 < j <= |ss|
    ensures ReleasedAll(ss[..j]) == Released(ss[0]) + ReleasedAll(ss[1..][..j - 1])
    ensures Flatten(ss[..j]) == ss[0] + Flatten(ss[1..][..j - 1])
  {
    hide Released;
    assert ss[..j][1..] == ss[1..][..j - 1];
  }

  lemma NoStretches(ss: seq<seq<Byte>>)
    ensures ReleasedAll(ss[..0]) == [] && Flatten(ss[..0]) == [] && Data([]) == []
  {
    assert ss[..0] == [];
  }

  /** When stretches hand out as many bytes as they hold, each hands out exactly its bytes. */
  lemma {:induction false} NothingLost(ss: seq<seq<Byte>>, j: nat)
    requires j <= |ss|
    ensures |Data(ReleasedAll(ss))| <= |Flatten(ss)|
    ensures |Data(ReleasedAll(ss))| == |Flatten(ss)| ==> Data(ReleasedAll(ss[..j])) == Flatten(ss[..j])
  {
    hide *;
    NoStretches(ss);
    assert ss[..|ss|] == ss;
    if ss != [] {
      var i, tail := if j == 0 then 0 else j - 1, ss[1..];
      assert tail[..|ss| - 1] == tail;
      StretchData(ss[0]);
      NothingLost(tail, i);
      TakeFirst(ss, |ss|);
      DataAppend(Released(ss[0]), ReleasedAll(tail));
      if j > 0 {
        TakeFirst(ss, j);
        DataAppend(Released(ss[0]), ReleasedAll(tail[..i]));
      }
    }
  }

  /** If the stretches release exactly the units, they begin where units do. */
  lemma OnlyAtBoundaries(ss: seq<seq<Byte>>, units: seq<seq<Nal>>)
    requires AllAccessUnits(units) && Flatten(ss) == Bytes(units) && ReleasedAll(ss) == DecodedAll(units)
    ensures AtBoundaries(ss, units)
  {
    hide Released, Bytes, AllAccessUnits, Data;
    DataOfDecoded(units);
    forall j | 0 <= j < |ss| ensures IsBoundary(Flatten(ss[..j]), units) {
      NothingLost(ss, j);
      assert ss == ss[..j] + ss[j..];
      ReleasedAllAppend(ss[..j], ss[j..]);
      var m := |ReleasedAll(ss[..j])|;
      assert ReleasedAll(ss[..j]) == DecodedAll(units)[..m] == DecodedAll(units[..m]);
      DataOfDecoded(units[..m]);
    }
  }

  /**
    Any reads and any idle flushes over a serialised stream, then one last flush: the units come
    back exactly, and the reader ends empty, if and only if every flush that released a picture
    fell between two access units. Flushes that find no slice buffered do not matter.
  */
  lemma IdleExactly(units: seq<seq<Nal>>, events: seq<Event>)
    requires AllAccessUnits(units) && NoReset([], events) && Input(events) == Bytes(units)
    ensures Run([], events + [Idle]) == Pieces(DecodedAll(units), []) <==> AtBoundaries(Stretches([], events), units)
  {
    hide NoReset, Run, Bytes, AllAccessUnits, AtBoundaries, Stretches, DecodedAll;
    var ss := Stretches([], events);
    RunWithLastFlush(events);
    FlushConservation(events);
    if AtBoundaries(ss, units) {
      GroupsReleased(ss, units);
    }
    if ReleasedAll(ss) == DecodedAll(units) {
      OnlyAtBoundaries(ss, units);
    }
  }

  lemma {:induction false} StretchesOfReads(s: seq<Byte>, front: seq<Event>, more: seq<Event>)
    requires OnlyReads(front)
    ensures Stretches(s, front + more) == Stretches(s + Input(front), more)
    decreases |front|
  {
    hide Pending, Stretches;
    if front == [] {
      assert front + more == more && s + Input(front) == s;
    } else {
      assert front[0] in front && forall e :: e in front[1..] ==> e in front;
      var chunk := front[0].chunk;
      assert front + more == [Read(chunk)] + (front[1..] + more);
      StretchesOfRead(s, chunk, front[1..] + more);
      StretchesOfReads(s + chunk, front[1..], more);
      assert s + chunk + Input(front[1..]) == s + Input(front);
    }
  }

  lemma StretchesOfRead(s: seq<Byte>, chunk: seq<Byte>, more: seq<Event>)
    ensures Stretches(s, [Read(chunk)] + more) == Stretches(s + chunk, more)
  {
    assert ([Read(chunk)] + more)[1..] == more;
  }

  /**
    One idle flush in the middle of a stream leaves the returned units as they are if and only if
    no slice is buffered there or the bytes read so far end at an access unit boundary.
  */
  lemma OneIdleFlush(units: seq<seq<Nal>>, a: seq<Event>, b: seq<Event>)
    requires AllAccessUnits(units) && OnlyReads(a) && OnlyReads(b) && NoReset([], a + [Idle] + b)
    requires Input(a) + Input(b) == Bytes(units)
    ensures Run([], a + [Idle] + b + [Idle]) == Pieces(DecodedAll(units), []) <==>
            !Pending(Input(a)) || IsBoundary(Input(a), units)
  {
    hide NoReset, Run, Bytes, AllAccessUnits, Pending, IsBoundary, DecodedAll, Stretches;
    var events := a + [Idle] + b;
    InputAround(a, b);
    IdleExactly(units, events);
    StretchesAround(a, b);
    TwoStretches(Input(a), Input(b), units);
  }

  lemma InputAround(a: seq<Event>, b: seq<Event>)
    ensures Input(a + [Idle] + b) == Input(a) + Input(b)
  {
    InputAppend(a, [Idle] + b);
    assert a + [Idle] + b == a + ([Idle] + b);
    assert ([Idle] + b)[1..] == b;
  }

  lemma StretchesAround(a: seq<Event>, b: seq<Event>)
    requires OnlyReads(a) && OnlyReads(b)
    ensures Stretches([], a + [Idle] + b) ==
            if Pending(Input(a)) then [Input(a), Input(b)] else [Input(a) + Input(b)]
  {
    hide Pending, Input;
    assert a + [Idle] + b == a + ([Idle] + b) && [] + Input(a) == Input(a) && [] + Input(b) == Input(b);
    StretchesOfReads([], a, [Idle] + b);
    assert ([Idle] + b)[1..] == b && b + [] == b;
    StretchesOfReads([], b, []);
    StretchesOfReads(Input(a), b, []);
  }

  lemma TwoStretches(s: seq<Byte>, t: seq<Byte>, units: seq<seq<Nal>>)
    ensures AtBoundaries([s, t], units) <==> IsBoundary(s, units)
    ensures AtBoundaries([s + t], units)
  {
    hide Bytes;
    BytesOfFew([]);
    assert units[..0] == [];
    assert IsBoundary([], units);
    assert [s, t][..0] == [] && [s, t][..1] == [s] && [s + t][..0] == [];
    FlattenOne(s);
    assert Flatten<Byte>([]) == [];
  }

  /** Each group of access units is read, in any division, and then the pipe goes idle. */
  function Paced(chunks: seq<seq<Event>>): seq<Event> {
    if chunks == [] then [] else chunks[0] + [Idle] + Paced(chunks[1..])
  }

  /** The encoder's own rhythm: with an idle pause after every group, every unit comes back at once. */
  lemma {:induction false} PacedRoundTrip(groups: seq<seq<seq<Nal>>>, runs: seq<seq<Event>>)
    requires |runs| == |groups|
    requires forall i :: 0 <= i < |groups| ==>
      groups[i] != [] && AllAccessUnits(groups[i]) && Undisturbed([], runs[i]) && Input(runs[i]) == Bytes(groups[i])
    ensures Run([], Paced(runs)) == Pieces(DecodedAll(Flatten(groups)), [])
  {
    hide Run, Undisturbed, AllAccessUnits, DecodedAll, Serialise;
    if groups == [] {
      NothingPaced();
    } else {
      RoundTrip(groups[0], runs[0]);
      PacedRoundTrip(groups[1..], runs[1..]);
      RunAppend([], runs[0] + [Idle], Paced(runs[1..]));
      DecodedAllAppend(groups[0], Flatten(groups[1..]));
    }
  }

  lemma NothingPaced()
    ensures Run([], Paced([])) == Pieces(DecodedAll(Flatten([])), [])
  {
  }
}
