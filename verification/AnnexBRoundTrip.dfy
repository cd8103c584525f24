/**
  A byte stream encoder after ITU-T H.264 section B.1 and the access unit order
  of section 7.4.1.2.3, and the proof that the reader inverts it.
*/
module AnnexBRoundTrip {
  import opened Common
  import opened AnnexB
  import AnnexBRuns

  datatype Nal = Nal(longCode: bool, body: seq<Byte>) {
    /** Classifiable, free of emulated start codes and without trailing zeros. */
    ghost predicate WellFormed() {
      && |body| >= 2
      && body[|body| - 1] != 0
      && forall i :: 0 <= i && i + 3 <= |body| ==> !(body[i] == 0 && body[i + 1] == 0 && body[i + 2] <= 1)
    }

    function Bytes(): seq<Byte> {
      (if longCode then [0, 0, 0, 1] else [0, 0, 1]) + body
    }

    /** `nal_unit_type`, the low five bits of the NAL header. */
    function Kind(): nat {
      if |body| > 0 then body[0] % 32 else 0
    }

    predicate IsSlice() {
      1 <= Kind() <= 5
    }

    /** `first_mb_in_slice == 0`: its Exp-Golomb code is the single bit 1. */
    predicate FirstMacroblock() {
      |body| > 1 && body[1] >= 128
    }

    /** May be the first NAL unit of an access unit. */
    predicate Opens() {
      Kind() in {6, 7, 8, 9, 13, 14, 15} || (IsSlice() && FirstMacroblock())
    }
  }

  ghost predicate AllWellFormed(nals: seq<Nal>) {
    forall i :: 0 <= i < |nals| ==> nals[i].WellFormed()
  }

  ghost predicate SliceBefore(nals: seq<Nal>, i: int)
    requires i <= |nals|
  {
    exists j :: 0 <= j < i && nals[j].IsSlice()
  }

  /** One primary coded picture: delimiter, parameter sets and SEI come first, then its slices. */
  ghost predicate IsAccessUnit(nals: seq<Nal>) {
    && nals != []
    && AllWellFormed(nals)
    && nals[0].Opens()
    && SliceBefore(nals, |nals|)
    && (forall i :: 0 < i < |nals| ==> nals[i].Kind() != 9)
    && (forall i :: 0 <= i < |nals| && nals[i].Kind() in {6, 7, 8, 13, 14, 15} ==> !SliceBefore(nals, i))
    && (forall i :: 0 <= i < |nals| && nals[i].IsSlice() ==> (nals[i].FirstMacroblock() <==> !SliceBefore(nals, i)))
  }

  function Serialise(nals: seq<Nal>): seq<Byte> {
    if nals == [] then [] else nals[0].Bytes() + Serialise(nals[1..])
  }

  /** The SPS and PPS NAL units, serialised in order. */
  function ParameterSets(nals: seq<Nal>): seq<Byte> {
    if nals == [] then []
    else
      var n := |nals| - 1;
      ParameterSets(nals[..n]) + if nals[n].Kind() in {7, 8} then nals[n].Bytes() else []
  }

  ghost function Decoded(nals: seq<Nal>): AccessUnit {
    var sets := ParameterSets(nals);
    AccessUnit(Serialise(nals), exists i :: 0 <= i < |nals| && nals[i].Kind() == 5, if sets == [] then None else Some(sets))
  }

  ghost predicate AllAccessUnits(units: seq<seq<Nal>>) {
    forall i :: 0 <= i < |units| ==> IsAccessUnit(units[i])
  }

  ghost function DecodedAll(units: seq<seq<Nal>>): (r: seq<AccessUnit>)
    ensures |r| == |units|
    ensures forall i :: 0 <= i < |r| ==> r[i] == Decoded(units[i])
  {
    seq(|units|, i requires 0 <= i < |units| => Decoded(units[i]))
  }

  // ---------------------------------------------------------------------
  // The index of a serialised stream
  // ---------------------------------------------------------------------

  function Refs(nals: seq<Nal>, offset: nat): (refs: seq<NalRef>)
    ensures |refs| == |nals|
    ensures forall i :: 0 <= i < |refs| ==> refs[i].kind == nals[i].Kind() && refs[i].firstSlice == nals[i].FirstMacroblock()
  {
    if nals == [] then []
    else [NalRef(offset, nals[0].Kind(), nals[0].FirstMacroblock())] + Refs(nals[1..], offset + |nals[0].Bytes()|)
  }

  lemma {:induction false} RefStart(nals: seq<Nal>, offset: nat, i: nat)
    requires i < |nals|
    ensures Refs(nals, offset)[i].start == offset + |Serialise(nals[..i])|
  {
    hide *;
    Unfolded(nals, offset);
    if i == 0 {
      assert nals[..0] == [];
      Unfolded([], offset);
    } else {
      var size := |nals[0].Bytes()|;
      Unfolded(nals[..i], offset);
      assert nals[..i][0] == nals[0] && nals[..i][1..] == nals[1..][..i - 1];
      RefStart(nals[1..], offset + size, i - 1);
    }
  }

  lemma Unfolded(nals: seq<Nal>, offset: nat)
    ensures nals == [] ==> Serialise(nals) == []
    ensures nals != [] ==> Serialise(nals) == nals[0].Bytes() + Serialise(nals[1..])
    ensures nals != [] ==> Refs(nals, offset)[0].start == offset
    ensures nals != [] ==> Refs(nals, offset)[1..] == Refs(nals[1..], offset + |nals[0].Bytes()|)
  {
  }

  lemma RefsRaise(nals: seq<Nal>, from: nat, offset: nat)
    ensures Raise(Refs(nals, from), offset) == Refs(nals, from + offset)
  {
    hide Refs, Serialise, Nal.Kind, Nal.FirstMacroblock;
    var low, high := Refs(nals, from), Refs(nals, from + offset);
    forall i | 0 <= i < |nals| ensures low[i].(start := low[i].start + offset) == high[i] {
      RefStart(nals, from, i);
      RefStart(nals, from + offset, i);
    }
  }

  /** Inside a NAL unit, and across its end, no other start code shows up. */
  lemma NoOtherStartCode(nal: Nal, t: seq<Byte>, p: nat)
    requires nal.WellFormed() && p < |nal.Bytes()| && p != |nal.Bytes()| - |nal.body| - 3
    ensures !StartCodeAt(nal.Bytes() + t, p)
  {
    var a := nal.Bytes();
    var c := |a| - |nal.body| - 3;
    if c + 3 <= p <= |a| - 3 {
      var i := p - (c + 3);
      assert a[p] == nal.body[i] && a[p + 1] == nal.body[i + 1] && a[p + 2] == nal.body[i + 2];
    } else if p >= |a| - 2 {
      assert a[|a| - 1] == nal.body[|nal.body| - 1];
    }
  }

  /** A NAL unit holds one start code, its own, whatever follows it. */
  lemma OneStartCode(nal: Nal, t: seq<Byte>)
    requires nal.WellFormed()
    ensures NalsBelow(nal.Bytes() + t, |nal.Bytes()|) == [NalRef(0, nal.Kind(), nal.FirstMacroblock())]
  {
    var a := nal.Bytes();
    var s := a + t;
    var c := |a| - |nal.body| - 3;
    forall p | 0 <= p < |a| && p != c ensures !StartCodeAt(s, p) {
      NoOtherStartCode(nal, t, p);
    }
    assert s[c + 3] == nal.body[0] && s[c + 4] == nal.body[1];
    assert StartCodeAt(s, c) && NalAt(s, c) == NalRef(0, nal.Kind(), nal.FirstMacroblock());
    NalsStop(s, 0, c);
    assert NalsBelow(s, c + 1) == NalsBelow(s, c) + [NalAt(s, c)];
    NalsStop(s, c + 1, |a|);
  }

  lemma {:induction false} NalsOfSerialised(nals: seq<Nal>)
    requires AllWellFormed(nals)
    ensures Nals(Serialise(nals)) == Refs(nals, 0)
  {
    if nals != [] {
      var a, t := nals[0].Bytes(), Serialise(nals[1..]);
      assert a[|a| - 1] == nals[0].body[|nals[0].body| - 1];
      NalsConcat(a, t, |t|);
      OneStartCode(nals[0], t);
      NalsOfSerialised(nals[1..]);
      RefsRaise(nals[1..], 0, |a|);
    }
  }

  lemma {:induction false} SerialiseAppend(a: seq<Nal>, b: seq<Nal>)
    ensures Serialise(a + b) == Serialise(a) + Serialise(b)
  {
    if a == [] {
      assert a + b == b;
    } else {
      assert (a + b)[1..] == a[1..] + b;
      SerialiseAppend(a[1..], b);
    }
  }

  lemma SerialiseOne(nal: Nal)
    ensures Serialise([nal]) == nal.Bytes()
  {
    assert Serialise([nal]) == nal.Bytes() + Serialise([]);
  }

  /** Where the NAL units of a serialised stream begin and what they hold. */
  lemma NalBytesAt(nals: seq<Nal>, more: seq<Nal>, i: nat)
    requires i < |nals|
    ensures var buf := Serialise(nals + more); var from := |Serialise(nals[..i])|;
            && from + |nals[i].Bytes()| == |Serialise(nals[..i + 1])| <= |buf|
            && buf[from..|Serialise(nals[..i + 1])|] == nals[i].Bytes()
  {
    hide *;
    SerialiseOne(nals[i]);
    var head, after := nals[..i], nals[i + 1..] + more;
    assert nals[..i + 1] == head + [nals[i]];
    assert nals + more == head + ([nals[i]] + after);
    SerialiseAppend(head, [nals[i]]);
    SerialiseAppend(head, [nals[i]] + after);
    SerialiseAppend([nals[i]], after);
    Middle(Serialise(head), nals[i].Bytes(), Serialise(after));
  }

  lemma Middle<T>(a: seq<T>, b: seq<T>, c: seq<T>)
    ensures (a + (b + c))[|a|..|a + b|] == b
  {
  }

  /** The bytes between two recorded starts are one whole NAL unit. */
  lemma RefSpan(nals: seq<Nal>, more: seq<Nal>, i: nat)
    requires i < |nals|
    ensures var from, to := Refs(nals, 0)[i].start, StopOf(Refs(nals, 0), i, |Serialise(nals)|);
            from <= to <= |Serialise(nals + more)| && Serialise(nals + more)[from..to] == nals[i].Bytes()
  {
    hide Refs, Serialise, Nal.Bytes;
    NalBytesAt(nals, more, i);
    RefStart(nals, 0, i);
    if i + 1 < |nals| {
      RefStart(nals, 0, i + 1);
    } else {
      assert nals[..i + 1] == nals;
    }
  }

  lemma {:induction false} ParameterBytesOfSerialised(nals: seq<Nal>, more: seq<Nal>, b: nat)
    requires b <= |nals|
    requires Located(Refs(nals, 0), |Serialise(nals)|) && |Serialise(nals)| <= |Serialise(nals + more)|
    ensures ParameterBytes(Serialise(nals + more), Refs(nals, 0), b, |Serialise(nals)|) == ParameterSets(nals[..b])
  {
    if b > 0 {
      ParameterBytesOfSerialised(nals, more, b - 1);
      assert nals[..b][..b - 1] == nals[..b - 1];
      RefSpan(nals, more, b - 1);
      hide Serialise, Refs;
      assert nals[..b][b - 1] == nals[b - 1];
    }
  }

  // ---------------------------------------------------------------------
  // Boundaries
  // ---------------------------------------------------------------------

  lemma HasSliceOfRefs(nals: seq<Nal>, i: nat)
    requires i <= |nals|
    ensures HasSlice(Refs(nals, 0)[..i]) <==> SliceBefore(nals, i)
  {
    hide Refs, Nal.Kind, Nal.FirstMacroblock;
  }

  lemma SliceBeforeLocal(nals: seq<Nal>, more: seq<Nal>, i: nat)
    requires i <= |nals|
    ensures SliceBefore(nals + more, i) == SliceBefore(nals, i)
  {
    if SliceBefore(nals, i) {
      var j :| 0 <= j < i && nals[j].IsSlice();
      assert (nals + more)[j].IsSlice();
    }
  }

  /** The greedy rule cuts exactly where the next access unit begins. */
  lemma CutAfterUnit(unit: seq<Nal>, more: seq<Nal>)
    requires IsAccessUnit(unit)
    requires more != [] ==> more[0].Opens()
    ensures FirstCut(Refs(unit + more, 0)) == if more == [] then None else Some(|unit|)
  {
    hide Refs, CutsAt, IsAccessUnit;
    var refs := Refs(unit + more, 0);
    forall i | 0 <= i < |unit| ensures !CutsAt(refs, i) {
      NoCutInside(unit, more, i);
    }
    if more != [] {
      HasOwnSlice(unit);
      CutBefore(unit, more);
      FirstCutIs(refs, |unit|);
    }
  }

  lemma HasOwnSlice(unit: seq<Nal>)
    requires IsAccessUnit(unit)
    ensures SliceBefore(unit, |unit|)
  {
  }

  lemma NoCutInside(unit: seq<Nal>, more: seq<Nal>, i: nat)
    requires IsAccessUnit(unit) && i < |unit|
    ensures !CutsAt(Refs(unit + more, 0), i)
  {
    hide Refs;
    HasSliceOfRefs(unit + more, i);
    SliceBeforeLocal(unit, more, i);
    assert (unit + more)[i] == unit[i];
  }

  lemma CutBefore(unit: seq<Nal>, more: seq<Nal>)
    requires SliceBefore(unit, |unit|)
    requires more != [] && more[0].Opens()
    ensures CutsAt(Refs(unit + more, 0), |unit|)
  {
    hide Refs;
    HasSliceOfRefs(unit + more, |unit|);
    SliceBeforeLocal(unit, more, |unit|);
    assert (unit + more)[|unit|] == more[0];
  }

  lemma UnitOfSerialised(unit: seq<Nal>, more: seq<Nal>)
    requires IsAccessUnit(unit) && AllWellFormed(more)
    ensures var refs, end := Refs(unit + more, 0), |Serialise(unit)|;
            && refs[..|unit|] == Refs(unit, 0)
            && Located(Refs(unit, 0), end) && end <= |Serialise(unit + more)|
            && UnitOf(Serialise(unit + more), Refs(unit, 0), end) == Decoded(unit)
  {
    hide Refs, Serialise, Nals, Nal.Bytes, ParameterBytes, ParameterSets;
    var refs := Refs(unit, 0);
    NalsOfSerialised(unit);
    SerialiseAppend(unit, more);
    RefsPrefix(unit, more, 0);
    ParameterBytesOfSerialised(unit, more, |unit|);
    assert unit[..|unit|] == unit;
    FirstRef(unit);
    HasKeyOfRefs(unit);
  }

  lemma FirstRef(unit: seq<Nal>)
    requires unit != []
    ensures Refs(unit, 0)[0].start == 0
  {
  }

  lemma HasKeyOfRefs(unit: seq<Nal>)
    ensures HasKey(Refs(unit, 0)) <==> exists i :: 0 <= i < |unit| && unit[i].Kind() == 5
  {
    var refs := Refs(unit, 0);
    hide Refs, Nal.Kind;
    assert forall i :: 0 <= i < |unit| ==> refs[i].kind == unit[i].Kind();
  }

  lemma {:induction false} RefsPrefix(nals: seq<Nal>, more: seq<Nal>, offset: nat)
    ensures Refs(nals + more, offset)[..|nals|] == Refs(nals, offset)
  {
    if nals != [] {
      assert (nals + more)[1..] == nals[1..] + more;
      RefsPrefix(nals[1..], more, offset + |nals[0].Bytes()|);
    }
  }

  // ---------------------------------------------------------------------
  // Round trip
  // ---------------------------------------------------------------------

  lemma {:induction false} FlattenWellFormed(units: seq<seq<Nal>>)
    requires AllAccessUnits(units)
    ensures AllWellFormed(Flatten(units))
  {
    if units != [] {
      FlattenWellFormed(units[1..]);
    }
  }

  /** The first unit of a longer stream is cut off whole. */
  lemma FirstUnitDecoded(unit: seq<Nal>, next: seq<Nal>, beyond: seq<Nal>)
    requires IsAccessUnit(unit) && IsAccessUnit(next) && AllWellFormed(beyond)
    ensures var tail := Split(Serialise(next + beyond));
            Split(Serialise(unit + (next + beyond))) == Pieces([Decoded(unit)] + tail.units, tail.rest)
  {
    var more := next + beyond;
    NalsOfSerialised(unit + more);
    CutAfterUnit(unit, more);
    UnitOfSerialised(unit, more);
    SerialiseAppend(unit, more);
    RefStart(unit + more, 0, |unit|);
    SplitCut(Serialise(unit + more), |unit|);
    hide *;
    assert (unit + more)[..|unit|] == unit;
    assert Serialise(unit + more)[|Serialise(unit)|..] == Serialise(more);
  }

  lemma SplitOnly(unit: seq<Nal>)
    requires IsAccessUnit(unit)
    ensures Split(Serialise(unit)) == Pieces([], Serialise(unit))
  {
    NalsOfSerialised(unit);
    CutAfterUnit(unit, []);
    assert unit + [] == unit;
  }

  /** Everything but the last unit is released; the last one stays buffered. */
  lemma {:induction false} SplitOfSerialised(units: seq<seq<Nal>>)
    requires units != [] && AllAccessUnits(units)
    ensures Split(Serialise(Flatten(units))) ==
            Pieces(DecodedAll(units[..|units| - 1]), Serialise(units[|units| - 1]))
    decreases |units|
  {
    hide Split, Decoded, DecodedAll, IsAccessUnit, Serialise;
    var unit, later := units[0], units[1..];
    if later == [] {
      assert Flatten(units) == unit + Flatten(later) == unit;
      SplitOnly(unit);
    } else {
      FlattenWellFormed(later[1..]);
      FirstUnitDecoded(unit, later[0], Flatten(later[1..]));
      SplitOfSerialised(later);
      assert later[|later| - 1] == units[|units| - 1];
      assert units[..|units| - 1] == [unit] + later[..|later| - 1];
      DecodedAllAppend([unit], later[..|later| - 1]);
    }
  }

  lemma DecodedAllAppend(a: seq<seq<Nal>>, b: seq<seq<Nal>>)
    ensures DecodedAll(a + b) == DecodedAll(a) + DecodedAll(b)
    ensures |a| == 1 ==> DecodedAll(a) == [Decoded(a[0])]
    ensures |b| == 1 ==> DecodedAll(b) == [Decoded(b[0])]
  {
  }

  lemma FlushOfSerialised(unit: seq<Nal>)
    requires IsAccessUnit(unit)
    ensures AnnexBRuns.Flush(Serialise(unit)).units == [Decoded(unit)]
    ensures AnnexBRuns.Flush(Serialise(unit)).rest == []
  {
    NalsOfSerialised(unit);
    HasSliceOfRefs(unit, |unit|);
    assert Refs(unit, 0)[..|unit|] == Refs(unit, 0);
    UnitOfSerialised(unit, []);
    assert unit + [] == unit;
  }

  /**
    However the pipe cuts the stream, reading a serialised sequence of access units
    and flushing once returns exactly those access units.
  */
  lemma RoundTrip(units: seq<seq<Nal>>, events: seq<AnnexBRuns.Event>)
    requires units != [] && AllAccessUnits(units)
    requires AnnexBRuns.Undisturbed([], events)
    requires AnnexBRuns.Input(events) == Serialise(Flatten(units))
    ensures AnnexBRuns.Run([], events).units == DecodedAll(units[..|units| - 1])
    ensures AnnexBRuns.Run([], events + [AnnexBRuns.Idle]) == Pieces(DecodedAll(units), [])
  {
    AnnexBRuns.RunOfReads(events);
    SplitOfSerialised(units);
    AnnexBRuns.RunThenFlush([], events);
    LastUnit(units);
  }

  lemma LastUnit(units: seq<seq<Nal>>)
    requires units != [] && AllAccessUnits(units)
    ensures var last := Serialise(units[|units| - 1]);
            && DecodedAll(units) == DecodedAll(units[..|units| - 1]) + AnnexBRuns.Flush(last).units
            && AnnexBRuns.Flush(last).rest == []
  {
    var n := |units| - 1;
    assert units == units[..n] + [units[n]];
    DecodedAllAppend(units[..n], [units[n]]);
    FlushOfSerialised(units[n]);
  }
}
