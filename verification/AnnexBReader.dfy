/**
  `AnnexBStreamReader`: the buffer, the NAL index and the scan cursor, updated in
  place. Every method is proved against the functions of `AnnexB` and `AnnexBRuns`.
*/
module AnnexBReader {
  import opened Common
  import opened AnnexB
  import AnnexBRuns

  /** Where scanning resumes after `length` bytes: far enough back for a truncated start code. */
  function ScanPoint(length: nat): nat {
    if length <= 4 then 0 else length - 4
  }

  lemma EmptyBuffer()
    ensures Nals([]) == [] && AnnexBRuns.Settled([])
  {
  }

  lemma CodeBelow(s: seq<Byte>, index: nat)
    requires StartCodeAt(s, index)
    ensures NalsBelow(s, index + 3) == NalsBelow(s, index) + [NalAt(s, index)]
  {
    NalsStop(s, index + 1, index + 3);
  }

  /** The index of the bytes before the scan point holds after more bytes. */
  lemma IndexSoFar(s: seq<Byte>, before: nat)
    requires before <= |s|
    ensures Nals(s[..before]) == NalsBelow(s, ScanPoint(before))
  {
    var head := s[..before];
    NalsStop(head, ScanPoint(before), before);
    NalsPrefix(head, s[before..], ScanPoint(before));
    assert head + s[before..] == s;
  }

  class AnnexBStreamReader {
    var buffer: seq<Byte>
    var nals: seq<NalRef>
    var scanFrom: nat

    /** The index and the cursor are those of a fresh scan of the buffer. */
    ghost predicate Indexed()
      reads this
    {
      nals == Nals(buffer) && scanFrom == ScanPoint(|buffer|)
    }

    ghost predicate Valid()
      reads this
    {
      Indexed() && AnnexBRuns.Settled(buffer)
    }

    constructor ()
      ensures Valid() && buffer == []
    {
      buffer, nals, scanFrom := [], [], 0;
    }

    method Push(chunk: seq<Byte>) returns (units: seq<AccessUnit>)
      requires Valid()
      modifies this
      ensures Valid() && |buffer| <= MAX_ANNEX_B_BUFFER
      ensures units == AnnexBRuns.Push(old(buffer), chunk).units
      ensures buffer == AnnexBRuns.Push(old(buffer), chunk).rest
    {
      hide Nals, NalsBelow, FirstCut, HasSlice, CutsAt, UnitOf, Split;
      ghost var before := |buffer|;
      buffer := buffer + chunk;
      assert buffer[..before] == old(buffer);
      Scan(before);
      ghost var all := buffer;
      units := [];
      var boundary := NextBoundary();
      while boundary.Some?
        invariant Indexed() && boundary == FirstCut(nals)
        invariant Split(all) == Pieces(units + Split(buffer).units, Split(buffer).rest)
        decreases |buffer|
      {
        SplitCut(buffer, boundary.value);
        assert 0 <= nals[0].start < nals[boundary.value].start;
        var unit := TakeAccessUnit(boundary.value);
        assert units + ([unit] + Split(buffer).units) == (units + [unit]) + Split(buffer).units;
        units := units + [unit];
        boundary := NextBoundary();
      }
      SplitNone(buffer);
      if |buffer| > MAX_ANNEX_B_BUFFER {
        EmptyBuffer();
        buffer, nals, scanFrom := [], [], 0;
      }
    }

    method Scan(ghost before: nat)
      requires before <= |buffer|
      requires nals == Nals(buffer[..before]) && scanFrom == ScanPoint(before)
      modifies this`nals, this`scanFrom
      ensures Indexed()
    {
      IndexSoFar(buffer, before);
      hide NalsBelow;
      var index := scanFrom;
      while index + 5 <= |buffer|
        invariant index <= |buffer|
        invariant nals == NalsBelow(buffer, index)
      {
        if buffer[index] != 0 || buffer[index + 1] != 0 || buffer[index + 2] != 1 {
          NalsNext(buffer, index);
          index := index + 1;
          continue;
        }
        CodeBelow(buffer, index);
        var start := if index > 0 && buffer[index - 1] == 0 then index - 1 else index;
        nals := nals + [NalRef(start, buffer[index + 3] % 32, buffer[index + 4] >= 128)];
        index := index + 3;
      }
      NalsStop(buffer, index, |buffer|);
      scanFrom := ScanPoint(|buffer|);
    }

    method NextBoundary() returns (boundary: Option<nat>)
      ensures boundary == FirstCut(nals)
    {
      var hasSlice := false;
      for index := 0 to |nals|
        invariant hasSlice == HasSlice(nals[..index])
        invariant forall j :: 0 <= j < index ==> !CutsAt(nals, j)
      {
        if index > 0 && nals[index].StartsAccessUnit(hasSlice) {
          FirstCutIs(nals, index);
          return Some(index);
        }
        assert nals[..index + 1] == nals[..index] + [nals[index]];
        if nals[index].IsSlice() {
          assert nals[..index + 1][index].IsSlice();
          hasSlice := true;
        }
      }
      return None;
    }

    method HasPendingPicture() returns (pending: bool)
      ensures pending == HasSlice(nals)
    {
      for index := 0 to |nals|
        invariant !HasSlice(nals[..index])
      {
        if nals[index].IsSlice() {
          return true;
        }
      }
      assert nals[..|nals|] == nals;
      return false;
    }

    method FlushPending() returns (unit: Option<AccessUnit>)
      requires Valid()
      modifies this
      ensures Valid()
      ensures var e := AnnexBRuns.Flush(old(buffer));
              buffer == e.rest && (if unit.Some? then [unit.value] else []) == e.units
    {
      var pending := HasPendingPicture();
      if !pending {
        return None;
      }
      assert nals[..|nals|] == nals;
      var taken := TakeAccessUnitBefore(|nals|, |buffer|);
      return Some(taken);
    }

    method TakeAccessUnit(boundary: nat) returns (unit: AccessUnit)
      requires Indexed() && 0 < boundary < |nals|
      modifies this
      ensures Indexed()
      ensures unit == UnitOf(old(buffer), old(nals[..boundary]), old(nals[boundary].start))
      ensures buffer == old(buffer[nals[boundary].start..])
    {
      var end := nals[boundary].start;
      unit := TakeAccessUnitBefore(boundary, end);
    }

    method TakeAccessUnitBefore(boundary: nat, end: nat) returns (unit: AccessUnit)
      requires Indexed() && 0 < boundary <= |nals|
      requires end == if boundary < |nals| then nals[boundary].start else |buffer|
      modifies this
      ensures Indexed()
      ensures unit == UnitOf(old(buffer), old(nals[..boundary]), end)
      ensures buffer == old(buffer[end..])
    {
      ghost var all, taken := buffer, nals[..boundary];
      var begin := nals[0].start;
      var keyFrame, parameterSets := Describe(boundary, end);
      assert taken[..boundary] == taken;
      var data := buffer[begin..end];
      if boundary < |nals| {
        NalsAfterCut(all, boundary);
      }
      buffer := buffer[end..];
      nals := nals[boundary..];
      Rebase(end);
      scanFrom := if scanFrom <= end then 0 else scanFrom - end;
      unit := AccessUnit(data, keyFrame, if parameterSets == [] then None else Some(parameterSets));
    }

    /** The key flag and the SPS/PPS bytes of the first `boundary` NAL units. */
    method Describe(boundary: nat, end: nat) returns (keyFrame: bool, parameterSets: seq<Byte>)
      requires Indexed() && 0 < boundary <= |nals|
      requires end == if boundary < |nals| then nals[boundary].start else |buffer|
      ensures keyFrame == HasKey(nals[..boundary])
      ensures parameterSets == ParameterBytes(buffer, nals[..boundary], boundary, end)
    {
      ghost var taken := nals[..boundary];
      keyFrame, parameterSets := false, [];
      for index := 0 to boundary
        invariant keyFrame == HasKey(taken[..index])
        invariant parameterSets == ParameterBytes(buffer, taken, index, end)
      {
        var nal := nals[index];
        assert taken[..index + 1] == taken[..index] + [nal];
        if nal.kind == 5 {
          assert taken[..index + 1][index].kind == 5;
          keyFrame := true;
        }
        if nal.kind == 7 || nal.kind == 8 {
          var stop := if index + 1 < |nals| then nals[index + 1].start else end;
          parameterSets := parameterSets + buffer[nal.start..stop];
        }
      }
      assert taken[..boundary] == taken;
    }

    /** Makes the recorded offsets relative to the drained buffer. */
    method Rebase(end: nat)
      requires nals == Raise(Nals(buffer), end)
      modifies this`nals
      ensures nals == Nals(buffer)
    {
      ghost var target := Nals(buffer);
      for index := 0 to |nals|
        invariant |nals| == |target|
        invariant forall k :: 0 <= k < index ==> nals[k] == target[k]
        invariant forall k :: index <= k < |nals| ==> nals[k] == target[k].(start := target[k].start + end)
      {
        nals := nals[index := nals[index].(start := nals[index].start - end)];
      }
    }
  }
}
