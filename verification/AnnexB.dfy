/**
  The Annex-B access unit splitter of src/screen.rs, as functions of the bytes
  received so far. `AnnexBReader` holds the imperative reader that refines them.
*/
module AnnexB {
  import opened Common

  const MAX_ANNEX_B_BUFFER: nat := 8 * 1024 * 1024

  datatype AccessUnit = AccessUnit(data: seq<Byte>, keyFrame: bool, parameterSets: Option<seq<Byte>>)

  datatype NalRef = NalRef(start: nat, kind: nat, firstSlice: bool) {
    predicate IsSlice() {
      1 <= kind <= 5
    }

    predicate StartsAccessUnit(hasSlice: bool) {
      if kind == 9 then true
      else if kind in {6, 7, 8, 13, 14, 15} then hasSlice
      else if IsSlice() then hasSlice && firstSlice
      else false
    }
  }

  // ---------------------------------------------------------------------
  // Start codes
  // ---------------------------------------------------------------------

  /** A three-byte start code at `p`, followed by the two bytes that classify the NAL unit. */
  predicate StartCodeAt(s: seq<Byte>, p: int) {
    0 <= p && p + 5 <= |s| && s[p] == 0 && s[p + 1] == 0 && s[p + 2] == 1
  }

  function NalAt(s: seq<Byte>, p: int): NalRef
    requires StartCodeAt(s, p)
  {
    NalRef(if p > 0 && s[p - 1] == 0 then p - 1 else p, s[p + 3] % 32, s[p + 4] >= 128)
  }

  /** NAL starts strictly increase and stay below `limit`. */
  ghost predicate Located(nals: seq<NalRef>, limit: int) {
    && (forall i :: 0 <= i < |nals| ==> nals[i].start < limit)
    && (forall i, j :: 0 <= i < j < |nals| ==> nals[i].start < nals[j].start)
  }

  /** The NAL units whose start code lies below position `n`, in stream order. */
  function NalsBelow(s: seq<Byte>, n: nat): (nals: seq<NalRef>)
    ensures Located(nals, n)
    ensures Located(nals, |s|)
    decreases n
  {
    if n == 0 then []
    else if StartCodeAt(s, n - 1) then
      // Start codes cannot overlap, so the two positions before this one hold none.
      assert n >= 2 ==> !StartCodeAt(s, n - 2) && NalsBelow(s, n - 1) == NalsBelow(s, n - 2);
      assert n >= 3 ==> !StartCodeAt(s, n - 3) && NalsBelow(s, n - 2) == NalsBelow(s, n - 3);
      NalsBelow(s, n - 1) + [NalAt(s, n - 1)]
    else NalsBelow(s, n - 1)
  }

  function Nals(s: seq<Byte>): (nals: seq<NalRef>)
    ensures Located(nals, |s|)
  {
    NalsBelow(s, |s|)
  }

  /** `at` lists the positions below `n` that hold a start code, in order. */
  ghost predicate Codes(s: seq<Byte>, n: nat, at: seq<nat>) {
    && (forall i :: 0 <= i < |at| ==> at[i] < n && StartCodeAt(s, at[i]))
    && (forall i, j :: 0 <= i < j < |at| ==> at[i] < at[j])
    && (forall p :: 0 <= p < n && StartCodeAt(s, p) ==> p in at)
  }

  lemma CodesStep(s: seq<Byte>, n: nat, at: seq<nat>)
    requires Codes(s, n, at)
    ensures Codes(s, n + 1, if StartCodeAt(s, n) then at + [n] else at)
  {
    hide StartCodeAt;
    var next := if StartCodeAt(s, n) then at + [n] else at;
    forall p | 0 <= p < n + 1 && StartCodeAt(s, p) ensures p in next {
      if p < n {
        assert p in at;
      } else {
        assert next[|at|] == n;
      }
    }
  }

  /** Every start code is recorded exactly once, in order, and nothing else is. */
  lemma {:induction false} NalsExact(s: seq<Byte>, n: nat) returns (at: seq<nat>)
    ensures Codes(s, n, at) && Recorded(s, NalsBelow(s, n), at)
  {
    hide *;
    NalsFirst(s);
    if n == 0 {
      at := [];
    } else {
      at := NalsExact(s, n - 1);
      NalsNext(s, n - 1);
      CodesStep(s, n - 1, at);
      RecordedStep(s, NalsBelow(s, n - 1), at, n - 1);
      at := if StartCodeAt(s, n - 1) then at + [n - 1] else at;
    }
  }

  /** The NAL units recorded are the ones at the positions `at`. */
  ghost predicate Recorded(s: seq<Byte>, nals: seq<NalRef>, at: seq<nat>) {
    |at| == |nals| && forall i :: 0 <= i < |at| ==> StartCodeAt(s, at[i]) && nals[i] == NalAt(s, at[i])
  }

  lemma RecordedStep(s: seq<Byte>, nals: seq<NalRef>, at: seq<nat>, n: nat)
    requires Recorded(s, nals, at)
    ensures StartCodeAt(s, n) ==> Recorded(s, nals + [NalAt(s, n)], at + [n])
  {
    hide StartCodeAt, NalAt;
  }

  lemma NalsNext(s: seq<Byte>, n: nat)
    ensures NalsBelow(s, n + 1) == if StartCodeAt(s, n) then NalsBelow(s, n) + [NalAt(s, n)] else NalsBelow(s, n)
  {
    hide StartCodeAt, NalAt;
  }

  lemma NalsFirst(s: seq<Byte>)
    ensures NalsBelow(s, 0) == [] && Codes(s, 0, []) && Recorded(s, NalsBelow(s, 0), [])
  {
  }

  lemma {:induction false} NalsStop(s: seq<Byte>, n: nat, m: nat)
    requires n <= m
    requires forall p :: n <= p < m ==> !StartCodeAt(s, p)
    ensures NalsBelow(s, m) == NalsBelow(s, n)
    decreases m
  {
    if n < m {
      NalsStop(s, n, m - 1);
    }
  }

  /** More input never disturbs what was already recorded. */
  lemma {:induction false} NalsPrefix(s: seq<Byte>, t: seq<Byte>, n: nat)
    requires n + 4 <= |s| || n == 0
    ensures NalsBelow(s + t, n) == NalsBelow(s, n)
  {
    if n > 0 {
      NalsPrefix(s, t, n - 1);
      assert StartCodeAt(s + t, n - 1) == StartCodeAt(s, n - 1);
    }
  }

  lemma {:induction false} NalsGrow(s: seq<Byte>, t: seq<Byte>)
    ensures Nals(s) <= Nals(s + t)
  {
    var n := if |s| <= 4 then 0 else |s| - 4;
    NalsStop(s, n, |s|);
    NalsPrefix(s, t, n);
    NalsMonotone(s + t, n, |s + t|);
  }

  lemma {:induction false} NalsMonotone(s: seq<Byte>, n: nat, m: nat)
    requires n <= m
    ensures NalsBelow(s, n) <= NalsBelow(s, m)
    decreases m
  {
    if n < m {
      NalsMonotone(s, n, m - 1);
    }
  }

  function Raise(nals: seq<NalRef>, offset: nat): (r: seq<NalRef>)
    ensures |r| == |nals|
    ensures forall i :: 0 <= i < |r| ==> r[i] == nals[i].(start := nals[i].start + offset)
  {
    seq(|nals|, i requires 0 <= i < |nals| => nals[i].(start := nals[i].start + offset))
  }

  /** Cutting before `t` leaves its start codes where they were, unless the cut eats a leading zero. */
  lemma {:induction false} NalsConcat(a: seq<Byte>, t: seq<Byte>, m: nat)
    requires StartCodeAt(t, 0) ==> a == [] || a[|a| - 1] != 0
    ensures NalsBelow(a + t, |a| + m) == NalsBelow(a + t, |a|) + Raise(NalsBelow(t, m), |a|)
    decreases m
  {
    hide *;
    if m == 0 {
      NalsNone(t, |a|);
    } else {
      var p := m - 1;
      NalsConcat(a, t, p);
      NalsStep(t, p, |a|);
      NalsStep(a + t, |a| + p, 0);
      CodeShifted(a, t, p);
    }
  }

  lemma NalsNone(s: seq<Byte>, offset: nat)
    ensures NalsBelow(s, 0) == [] && Raise([], offset) == []
  {
  }

  /** One more position adds at most one NAL unit, raised or not. */
  lemma NalsStep(s: seq<Byte>, n: nat, offset: nat)
    ensures !StartCodeAt(s, n) ==> NalsBelow(s, n + 1) == NalsBelow(s, n)
    ensures StartCodeAt(s, n) ==> NalsBelow(s, n + 1) == NalsBelow(s, n) + [NalAt(s, n)]
    ensures StartCodeAt(s, n) ==> Raise(NalsBelow(s, n + 1), offset) ==
                                  Raise(NalsBelow(s, n), offset) + [NalAt(s, n).(start := NalAt(s, n).start + offset)]
  {
  }

  lemma CodeShifted(a: seq<Byte>, t: seq<Byte>, p: nat)
    requires StartCodeAt(t, 0) ==> a == [] || a[|a| - 1] != 0
    ensures StartCodeAt(a + t, |a| + p) == StartCodeAt(t, p)
    ensures StartCodeAt(t, p) ==> NalAt(a + t, |a| + p) == NalAt(t, p).(start := NalAt(t, p).start + |a|)
  {
  }

  // ---------------------------------------------------------------------
  // Access unit boundaries
  // ---------------------------------------------------------------------

  predicate HasSlice(nals: seq<NalRef>) {
    exists i :: 0 <= i < |nals| && nals[i].IsSlice()
  }

  /** NAL unit `i` opens an access unit given the ones buffered before it. */
  predicate CutsAt(nals: seq<NalRef>, i: int) {
    0 < i < |nals| && nals[i].StartsAccessUnit(HasSlice(nals[..i]))
  }

  function FirstCutFrom(nals: seq<NalRef>, i: nat): (cut: Option<nat>)
    requires i <= |nals|
    ensures cut.Some? ==> i <= cut.value < |nals| && CutsAt(nals, cut.value)
    ensures forall j :: i <= j < (if cut.Some? then cut.value else |nals|) ==> !CutsAt(nals, j)
    decreases |nals| - i
  {
    if i == |nals| then None
    else if CutsAt(nals, i) then Some(i)
    else FirstCutFrom(nals, i + 1)
  }

  function FirstCut(nals: seq<NalRef>): (cut: Option<nat>)
    ensures cut.Some? ==> 0 < cut.value < |nals| && CutsAt(nals, cut.value)
    ensures forall j :: 0 <= j < (if cut.Some? then cut.value else |nals|) ==> !CutsAt(nals, j)
  {
    FirstCutFrom(nals, 0)
  }

  lemma FirstCutIs(nals: seq<NalRef>, b: nat)
    requires CutsAt(nals, b)
    requires forall j :: 0 <= j < b ==> !CutsAt(nals, j)
    ensures FirstCut(nals) == Some(b)
  {
    var cut := FirstCut(nals);
    assert cut.Some? && cut.value <= b;
  }

  /** A boundary, once found, is the same whatever arrives later. */
  lemma FirstCutStable(nals: seq<NalRef>, longer: seq<NalRef>)
    requires nals <= longer
    requires FirstCut(nals).Some?
    ensures FirstCut(longer) == FirstCut(nals)
  {
    var b := FirstCut(nals).value;
    forall j | 0 <= j <= b ensures CutsAt(longer, j) == CutsAt(nals, j) {
      assert longer[..j] == nals[..j];
    }
    FirstCutIs(longer, b);
  }

  // ---------------------------------------------------------------------
  // Cutting
  // ---------------------------------------------------------------------

  function StopOf(nals: seq<NalRef>, i: nat, end: nat): nat {
    if i + 1 < |nals| then nals[i + 1].start else end
  }

  /** The SPS and PPS NAL units among the first `b`, start codes included. */
  function ParameterBytes(buf: seq<Byte>, nals: seq<NalRef>, b: nat, end: nat): seq<Byte>
    requires b <= |nals| && Located(nals, end) && end <= |buf|
  {
    if b == 0 then []
    else
      ParameterBytes(buf, nals, b - 1, end) +
      if nals[b - 1].kind in {7, 8} then buf[nals[b - 1].start..StopOf(nals, b - 1, end)] else []
  }

  predicate HasKey(nals: seq<NalRef>) {
    exists i :: 0 <= i < |nals| && nals[i].kind == 5
  }

  /** The access unit made of `nals`, which reaches up to `end`. */
  function UnitOf(buf: seq<Byte>, nals: seq<NalRef>, end: nat): AccessUnit
    requires 0 < |nals| && Located(nals, end) && end <= |buf|
  {
    var sets := ParameterBytes(buf, nals, |nals|, end);
    AccessUnit(buf[nals[0].start..end], HasKey(nals), if sets == [] then None else Some(sets))
  }

  datatype Pieces = Pieces(units: seq<AccessUnit>, rest: seq<Byte>)

  /** All complete access units of `buf` and the bytes that stay buffered. */
  function Split(buf: seq<Byte>): Pieces
    decreases |buf|
  {
    var nals := Nals(buf);
    match FirstCut(nals)
    case None => Pieces([], buf)
    case Some(b) =>
      var end := nals[b].start;
      assert 0 <= nals[0].start < end;
      var tail := Split(buf[end..]);
      Pieces([UnitOf(buf, nals[..b], end)] + tail.units, tail.rest)
  }

  /** One cut of `Split`. */
  lemma SplitCut(buf: seq<Byte>, b: nat)
    requires FirstCut(Nals(buf)) == Some(b)
    ensures var end := Nals(buf)[b].start; var tail := Split(buf[end..]);
            Split(buf) == Pieces([UnitOf(buf, Nals(buf)[..b], end)] + tail.units, tail.rest)
  {
  }

  /** After a cut the reader's rebased index equals a fresh scan of what is left. */
  lemma {:induction false} NalsAfterCut(buf: seq<Byte>, b: nat)
    requires b < |Nals(buf)|
    ensures Nals(buf)[b..] == Raise(Nals(buf[Nals(buf)[b].start..]), Nals(buf)[b].start)
    ensures b > 0 ==> Nals(buf)[..b] == NalsBelow(buf, Nals(buf)[b].start)
  {
    var nals := Nals(buf);
    var end := nals[b].start;
    var a, t := buf[..end], buf[end..];
    assert a + t == buf;
    NalWitness(buf, b);
    NalsConcat(a, t, |t|);
    var c := |NalsBelow(buf, end)|;
    assert nals == NalsBelow(buf, end) + Raise(Nals(t), end);
    assert forall i :: 0 <= i < c ==> nals[i].start < end;
    assert forall i :: c <= i < |nals| ==> nals[i].start >= end;
    assert c <= b;
    assert nals[c].start >= end;
    assert c == b;
  }

  /** The start of a recorded NAL unit is its start code, or the zero right before it. */
  lemma NalWitness(s: seq<Byte>, b: nat)
    requires b < |Nals(s)|
    ensures var e := Nals(s)[b].start; if StartCodeAt(s, e) then e == 0 || s[e - 1] != 0 else StartCodeAt(s, e + 1) && s[e] == 0
  {
    var at := NalsExact(s, |s|);
    var p := at[b];
    assert StartCodeAt(s, p) && Nals(s)[b] == NalAt(s, p);
  }

  /** Rest bytes never hide a complete unit. */
  lemma {:induction false} SplitRest(buf: seq<Byte>)
    ensures FirstCut(Nals(Split(buf).rest)) == None
    ensures |Split(buf).rest| <= |buf|
    ensures Split(Split(buf).rest) == Pieces([], Split(buf).rest)
    decreases |buf|
  {
    var nals := Nals(buf);
    if FirstCut(nals).Some? {
      var end := nals[FirstCut(nals).value].start;
      assert 0 <= nals[0].start < end;
      SplitRest(buf[end..]);
    }
  }

  lemma {:induction false} ParameterBytesLocal(buf: seq<Byte>, t: seq<Byte>, nals: seq<NalRef>, b: nat, end: nat)
    requires b <= |nals| && Located(nals, end) && end <= |buf|
    ensures ParameterBytes(buf + t, nals, b, end) == ParameterBytes(buf, nals, b, end)
  {
    if b > 0 {
      ParameterBytesLocal(buf, t, nals, b - 1, end);
      var from, to := nals[b - 1].start, StopOf(nals, b - 1, end);
      assert (buf + t)[from..to] == buf[from..to];
    }
  }

  /** The heart of chunk invariance: splitting can pause anywhere. */
  lemma {:induction false} SplitResumes(buf: seq<Byte>, t: seq<Byte>)
    ensures var early := Split(buf); var late := Split(early.rest + t);
            Split(buf + t) == Pieces(early.units + late.units, late.rest)
    decreases |buf|
  {
    hide *;
    if FirstCut(Nals(buf)).None? {
      SplitNone(buf);
    } else {
      var unit, end := SplitFirst(buf, t);
      SplitResumes(buf[end..], t);
      var early, late := Split(buf[end..]), Split(Split(buf).rest + t);
      assert [unit] + (early.units + late.units) == [unit] + early.units + late.units;
    }
  }

  lemma SplitNone(buf: seq<Byte>)
    requires FirstCut(Nals(buf)).None?
    ensures Split(buf) == Pieces([], buf)
  {
  }

  /** The same first unit is cut off with and without the later bytes. */
  lemma SplitFirst(buf: seq<Byte>, t: seq<Byte>) returns (unit: AccessUnit, end: nat)
    requires FirstCut(Nals(buf)).Some?
    ensures 0 < end <= |buf|
    ensures var tail := Split(buf[end..]); Split(buf) == Pieces([unit] + tail.units, tail.rest)
    ensures var tail := Split(buf[end..] + t); Split(buf + t) == Pieces([unit] + tail.units, tail.rest)
  {
    var b := FirstCut(Nals(buf)).value;
    end := Nals(buf)[b].start;
    assert 0 <= Nals(buf)[0].start < end;
    unit := UnitOf(buf, Nals(buf)[..b], end);
    FirstUnitStable(buf, t);
    SplitCut(buf, b);
    SplitCut(buf + t, b);
    hide *;
    assert (buf + t)[end..] == buf[end..] + t;
  }

  lemma FirstUnitStable(buf: seq<Byte>, t: seq<Byte>)
    requires FirstCut(Nals(buf)).Some?
    ensures FirstCut(Nals(buf + t)) == FirstCut(Nals(buf))
    ensures var b := FirstCut(Nals(buf)).value;
            && b < |Nals(buf + t)| && Nals(buf + t)[b] == Nals(buf)[b]
            && UnitOf(buf + t, Nals(buf + t)[..b], Nals(buf)[b].start) == UnitOf(buf, Nals(buf)[..b], Nals(buf)[b].start)
  {
    var nals := Nals(buf);
    var b := FirstCut(nals).value;
    var end := nals[b].start;
    NalsGrow(buf, t);
    var longer := Nals(buf + t);
    FirstCutStable(nals, longer);
    assert longer[..b] == nals[..b] && longer[b] == nals[b];
    assert (buf + t)[nals[0].start..end] == buf[nals[0].start..end];
    ParameterBytesLocal(buf, t, nals[..b], b, end);
  }
}
