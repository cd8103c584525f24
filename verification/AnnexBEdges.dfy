/** Where the simpler statements about the Annex-B reader stop being true. */
module AnnexBEdges {
  import opened Common
  import opened AnnexB
  import opened AnnexBRoundTrip
  import opened AnnexBRuns

  /** An access unit delimiter always cuts, so a unit may hold no slice at all. */
  lemma DelimiterOnlyUnit(aud: Nal)
    requires aud.WellFormed() && aud.Kind() == 9
    ensures Split(Serialise([aud, aud])).units == [AccessUnit(aud.Bytes(), false, None)]
  {
    hide Split, Serialise, Refs, Nals, Nal.Bytes, Nal.WellFormed;
    var two := [aud, aud];
    SerialiseOne(aud);
    SerialiseAppend([aud], [aud]);
    assert [aud] + [aud] == two;
    IndexOfPair(aud);
    var buf, end := Serialise(two), |aud.Bytes()|;
    FirstCutIs(Nals(buf), 1);
    SplitCut(buf, 1);
    assert buf[end..] == aud.Bytes() && buf[0..end] == aud.Bytes();
    assert ParameterBytes(buf, Nals(buf)[..1], 1, end) == ParameterBytes(buf, Nals(buf)[..1], 0, end) + [];
    assert FirstCut(Nals(aud.Bytes())).None?;
    SplitNone(aud.Bytes());
  }

  lemma IndexOfPair(aud: Nal)
    requires aud.WellFormed() && aud.Kind() == 9
    ensures Nals(Serialise([aud, aud])) == [NalRef(0, 9, aud.FirstMacroblock()), NalRef(|aud.Bytes()|, 9, aud.FirstMacroblock())]
    ensures Nals(aud.Bytes()) == [NalRef(0, 9, aud.FirstMacroblock())]
  {
    var two := [aud, aud];
    SerialiseOne(aud);
    NalsOfSerialised(two);
    NalsOfSerialised([aud]);
    Unfolded(two, 0);
    Unfolded(two[1..], |aud.Bytes()|);
    Unfolded([aud], 0);
    hide Serialise, Refs, Nals, Nal.Bytes, Nal.WellFormed;
  }

  /** The units a cut leaves without a slice are those that end at a delimiter. */
  lemma SlicelessUnits(buf: seq<Byte>)
    requires FirstCut(Nals(buf)).Some?
    ensures var b := FirstCut(Nals(buf)).value;
            !HasSlice(Nals(buf)[..b]) ==> Nals(buf)[b].kind == 9
  {
  }

  /**
    The overflow reset is not chunk-invariant: an oversized access unit is
    returned when the next one arrives in the same read and lost otherwise.
  */
  lemma OverflowLosesUnit(big: seq<Nal>, next: seq<Nal>)
    requires IsAccessUnit(big) && IsAccessUnit(next)
    requires |Serialise(next)| <= MAX_ANNEX_B_BUFFER < |Serialise(big)|
    ensures Run([], [Read(Serialise(big) + Serialise(next))]).units == [Decoded(big)]
    ensures Run([], [Read(Serialise(big)), Read(Serialise(next))]).units == []
  {
    var a, b := Serialise(big), Serialise(next);
    SerialiseAppend(big, next);
    FirstUnitDecoded(big, next, []);
    assert next + [] == next;
    SplitOnly(big);
    SplitOnly(next);
    OneRead(a + b);
    OneRead(b);
    assert [Read(a), Read(b)][1..] == [Read(b)];
    assert [] + a == a;
    hide Split, Nals, IsAccessUnit, Serialise, Decoded;
    assert Push([], a).rest == [];
    assert Run([], [Read(a), Read(b)]).units == Push([], a).units + Run([], [Read(b)]).units;
  }

  /** Such a unit exists: a slice of filler bytes just over the cap. */
  lemma OversizedUnit() returns (big: seq<Nal>)
    ensures IsAccessUnit(big) && |Serialise(big)| > MAX_ANNEX_B_BUFFER
  {
    var filler := seq(MAX_ANNEX_B_BUFFER, _ => 255);
    var nal := Nal(false, [65, 154] + filler);
    big := [nal];
    assert nal.WellFormed();
    assert big[0].IsSlice();
    assert Serialise(big) == nal.Bytes() + Serialise([]);
  }

  /**
    An idle flush in the middle of a NAL unit: the byte 5 that still belonged to
    the slice arrives in front of the next start code and is skipped.
  */
  lemma FlushLosesAByte()
    ensures var a, b := [0, 0, 1, 65, 154], [5, 0, 0, 1, 9, 16, 0, 0, 1, 9, 16];
            var out := Run([], [Read(a)] + [Idle] + [Read(b)]);
            Data(out.units) + out.rest == a + b[1..]
  {
    var a := ScanSlice();
    var b := ScanDelimiters();
    OneRead(a);
    OneRead(b);
    hide *;
    FlushRestarts([Read(a)], [Read(b)]);
    assert a[0..] == a;
  }

  lemma ScanSlice() returns (a: seq<Byte>)
    ensures a == [0, 0, 1, 65, 154]
    ensures Split(a) == Pieces([], a) && HasSlice(Nals(a)) && Lead(a) == 0
  {
    hide NalsBelow, Split;
    a := [0, 0, 1, 65, 154];
    NalsZero(a);
    NalsStep(a, 0, 0);
    NalsStop(a, 1, |a|);
    assert Nals(a) == [NalRef(0, 1, true)];
    assert Nals(a)[0].IsSlice();
    SplitNone(a);
  }

  lemma ScanDelimiters() returns (b: seq<Byte>)
    ensures b == [5, 0, 0, 1, 9, 16, 0, 0, 1, 9, 16]
    ensures Split(b).units != [] && |Split(b).rest| <= |b| && Lead(b) == 1
  {
    b := IndexDelimiters();
    hide NalsBelow, Nals, Split, UnitOf;
    FirstCutIs(Nals(b), 1);
    SplitCut(b, 1);
    SplitRest(b);
  }

  lemma IndexDelimiters() returns (b: seq<Byte>)
    ensures b == [5, 0, 0, 1, 9, 16, 0, 0, 1, 9, 16]
    ensures Nals(b) == [NalRef(1, 9, false), NalRef(6, 9, false)]
  {
    var t := TwoDelimiters();
    JunkByte(5, t);
    b := [5] + t;
    hide *;
  }

  lemma TwoDelimiters() returns (t: seq<Byte>)
    ensures t == [0, 0, 1, 9, 16, 0, 0, 1, 9, 16]
    ensures Nals(t) == [NalRef(0, 9, false), NalRef(5, 9, false)]
  {
    var aud := Nal(false, [9, 16]);
    IndexOfPair(aud);
    t := Serialise([aud, aud]);
    SerialiseOne(aud);
    SerialiseAppend([aud], [aud]);
    hide NalsBelow, Serialise, Nals;
    assert [aud] + [aud] == [aud, aud];
  }

  /** A byte that cannot belong to a start code only shifts the index. */
  lemma JunkByte(junk: Byte, t: seq<Byte>)
    requires junk != 0
    ensures Nals([junk] + t) == Raise(Nals(t), 1)
  {
    hide NalsBelow;
    NalsZero([junk] + t);
    NalsStep([junk] + t, 0, 0);
    NalsConcat([junk], t, |t|);
  }

  lemma NalsZero(s: seq<Byte>)
    ensures NalsBelow(s, 0) == []
  {
  }

  lemma OneRead(s: seq<Byte>)
    requires |Split(s).rest| <= MAX_ANNEX_B_BUFFER
    ensures Undisturbed([], [Read(s)])
    ensures Input([Read(s)]) == s
    ensures Run([], [Read(s)]) == Split(s)
  {
    hide Split, Nals;
    assert [] + s == s;
    var one := [Read(s)];
    assert one[1..] == [];
    OneBigRead([], s);
  }
}
