/** From the encoder's access units to the client's: serialiser, pipe, reader, pump and reassembly composed. */
module H264EndToEnd {
  import opened Common
  import opened AnnexB
  import opened AnnexBRoundTrip
  import opened AnnexBStretches
  import opened AnnexBIdle
  import opened AnnexBPrefix
  import opened H264Pump
  import AnnexBRuns

  /** The bytes a pipeline's turns read. */
  function Piped(turns: seq<Turn>): seq<Byte> {
    AnnexBRuns.Input(Consumed(turns))
  }

  lemma OneDue(turns: seq<Turn>, n: nat)
    ensures Reassemble(DueOf(turns, n)) == FromKey(AnnexBRuns.Run([], Consumed(turns)).units)
  {
    hide FromKey, AnnexBRuns.Run, Consumed, Reassemble, EnvelopesOf;
    var kept := FromKey(AnnexBRuns.Run([], Consumed(turns)).units);
    ReassembleEnvelopes(kept, n, []);
    ReassembleNothing();
    assert EnvelopesOf(kept, n) + [] == EnvelopesOf(kept, n);
  }

  /**
    One pipeline that reads the beginning of a stream, cut by the pipe anyhow, with any number of idle
    flushes between access units: the client gets the units that have shown, from the first keyframe on.
  */
  lemma ClientGetsUnits(turns: seq<Turn>, units: seq<seq<Nal>>, n: nat) returns (k: nat)
    requires Feeds(Consumed(turns), units)
    ensures k <= |units| && Seen(Piped(turns), units, k)
    ensures Reassemble(DueOf(turns, n)) == FromKey(DecodedAll(units[..k]))
  {
    hide Feeds, Seen, DecodedAll, FromKey, Reassemble, DueOf, Consumed, AnnexBRuns.Run, AnnexBRuns.Input;
    k := FeedUnits(Consumed(turns), units);
    OneDue(turns, n);
  }

  // ---------------------------------------------------------------------
  // All pipelines
  // ---------------------------------------------------------------------

  /** Pipeline `i` reads the beginning of the stream `streams[i]` of its own encoder. */
  ghost predicate AllFeed(pipelines: seq<seq<Turn>>, streams: seq<seq<seq<Nal>>>) {
    |streams| == |pipelines| && forall i :: 0 <= i < |pipelines| ==> Feeds(Consumed(pipelines[i]), streams[i])
  }

  /** `ks[i]` units of stream `i` have shown when its pipeline ends. */
  ghost predicate AllSeen(pipelines: seq<seq<Turn>>, streams: seq<seq<seq<Nal>>>, ks: seq<nat>) {
    && |ks| == |streams| == |pipelines|
    && forall i :: 0 <= i < |ks| ==> ks[i] <= |streams[i]| && Seen(Piped(pipelines[i]), streams[i], ks[i])
  }

  /** Those units from each pipeline's first keyframe on, as long as keyframe requests keep respawning. */
  ghost function Joined(pipelines: seq<seq<Turn>>, streams: seq<seq<seq<Nal>>>, ks: seq<nat>): seq<AccessUnit>
    requires |ks| == |streams| == |pipelines| && forall i :: 0 <= i < |ks| ==> ks[i] <= |streams[i]|
  {
    if pipelines == [] then []
    else
      FromKey(DecodedAll(streams[0][..ks[0]])) +
      if Verdict(pipelines[0]) == KeyFrameRequested then Joined(pipelines[1..], streams[1..], ks[1..]) else []
  }

  /** Over any number of encoder respawns, each killed at any point of its stream. */
  lemma ClientGetsPipelines(pipelines: seq<seq<Turn>>, streams: seq<seq<seq<Nal>>>, n: nat) returns (ks: seq<nat>)
    requires AllFeed(pipelines, streams)
    ensures AllSeen(pipelines, streams, ks)
    ensures Reassemble(Due(pipelines, n)) == Joined(pipelines, streams, ks)
  {
    hide Feeds, Seen, DecodedAll, FromKey, Reassemble, Due, Consumed;
    ks := ForwardedUnits(pipelines, streams);
    DueForwards(pipelines, n);
  }

  lemma {:induction false} ForwardedUnits(pipelines: seq<seq<Turn>>, streams: seq<seq<seq<Nal>>>) returns (ks: seq<nat>)
    requires AllFeed(pipelines, streams)
    ensures AllSeen(pipelines, streams, ks)
    ensures Forwarded(pipelines) == Joined(pipelines, streams, ks)
    decreases |pipelines|
  {
    hide Feeds, Seen, DecodedAll, FromKey, Consumed, AnnexBRuns.Run, AnnexBRuns.Input;
    if pipelines == [] {
      ks := [];
    } else {
      var k := FeedUnits(Consumed(pipelines[0]), streams[0]);
      var later := ForwardedUnits(pipelines[1..], streams[1..]);
      ks := [k] + later;
      assert ks[1..] == later;
      forall i | 0 <= i < |ks| ensures ks[i] <= |streams[i]| && Seen(Piped(pipelines[i]), streams[i], ks[i]) {
        if i > 0 {
          assert ks[i] == later[i - 1] && streams[i] == streams[1..][i - 1] && pipelines[i] == pipelines[1..][i - 1];
        }
      }
    }
  }

  // ---------------------------------------------------------------------
  // A whole stream
  // ---------------------------------------------------------------------

  /** One more turn, just before the pipeline ends. */
  function PutBeforeEnd(turns: seq<Turn>, turn: Turn): seq<Turn> {
    if turns == [] || Ends(turns[0]) then [turn] + turns else [turns[0]] + PutBeforeEnd(turns[1..], turn)
  }

  lemma {:induction false} ConsumedThen(turns: seq<Turn>, turn: Turn)
    requires !Ends(turn)
    ensures Consumed(PutBeforeEnd(turns, turn)) == Consumed(turns) + Event(turn)
  {
    hide Event, Ends;
    var more := PutBeforeEnd(turns, turn);
    if turns == [] || Ends(turns[0]) {
      assert more[1..] == turns;
      assert Consumed(turns) == [];
      assert Event(turn) + [] == [] + Event(turn);
    } else {
      assert more[0] == turns[0] && more[1..] == PutBeforeEnd(turns[1..], turn);
      ConsumedThen(turns[1..], turn);
      assert Consumed(turns) == Event(turns[0]) + Consumed(turns[1..]);
    }
  }

  /** A whole stream and an idle pause at its end: every unit from the first keyframe on, the last one included. */
  lemma ClientGetsAll(turns: seq<Turn>, units: seq<seq<Nal>>, n: nat)
    requires Feeds(Consumed(turns), units) && Piped(turns) == Bytes(units)
    ensures Reassemble(DueOf(PutBeforeEnd(turns, IdleTimeout), n)) == FromKey(DecodedAll(units))
  {
    hide *;
    IdleGoesOn();
    ConsumedThen(turns, IdleTimeout);
    OneDue(PutBeforeEnd(turns, IdleTimeout), n);
    PipedIs(turns);
    FeedAll(Consumed(turns), units);
  }

  /** The first access unit contains an IDR slice, as the encoder's first one does. */
  ghost predicate OpensOnIdr(units: seq<seq<Nal>>) {
    units != [] && exists i :: 0 <= i < |units[0]| && units[0][i].Kind() == 5
  }

  lemma KeyUnitFirst(units: seq<seq<Nal>>)
    requires OpensOnIdr(units)
    ensures FromKey(DecodedAll(units)) == DecodedAll(units)
  {
    hide Serialise, ParameterSets;
    assert DecodedAll(units)[0] == Decoded(units[0]);
  }

  /**
    A pipeline that opens on an IDR, carries a whole stream and ends on an idle pause: the client has
    exactly the encoder's units, and so its bytes, if and only if every flush before fell between units.
  */
  lemma NothingWithheld(turns: seq<Turn>, units: seq<seq<Nal>>, n: nat)
    requires AllAccessUnits(units) && OpensOnIdr(units)
    requires NoReset([], Consumed(turns)) && Piped(turns) == Bytes(units)
    ensures var got := Reassemble(DueOf(PutBeforeEnd(turns, IdleTimeout), n));
            && (got == DecodedAll(units) <==> AtBoundaries(Stretches([], Consumed(turns)), units))
            && (got == DecodedAll(units) ==> AnnexBRuns.Data(got) == Piped(turns))
  {
    hide *;
    var events := Consumed(turns);
    IdleGoesOn();
    ConsumedThen(turns, IdleTimeout);
    OneDue(PutBeforeEnd(turns, IdleTimeout), n);
    PipedIs(turns);
    IdleExactly(units, events);
    DataOfDecoded(units);
    KeyUnitFirst(units);
    KeyedExactly(units, events);
  }

  lemma IdleGoesOn()
    ensures !Ends(IdleTimeout) && Event(IdleTimeout) == [AnnexBRuns.Idle]
  {
  }

  lemma PipedIs(turns: seq<Turn>)
    ensures Piped(turns) == AnnexBRuns.Input(Consumed(turns))
  {
  }

  /** Withholding leading units cannot make up for a unit torn by a flush. */
  lemma KeyedExactly(units: seq<seq<Nal>>, events: seq<AnnexBRuns.Event>)
    requires AllAccessUnits(units) && OpensOnIdr(units)
    requires NoReset([], events) && AnnexBRuns.Input(events) == Bytes(units)
    ensures var out := AnnexBRuns.Run([], events + [AnnexBRuns.Idle]);
            FromKey(out.units) == DecodedAll(units) <==> out == Pieces(DecodedAll(units), [])
  {
    hide *;
    var ss, all := Stretches([], events), AnnexBRuns.Run([], events + [AnnexBRuns.Idle]).units;
    RunWithLastFlush(events);
    FlushConservation(events);
    NothingLost(ss, 0);
    DataOfDecoded(units);
    KeyUnitFirst(units);
    IdleExactly(units, events);
    var m := WithheldUntilKey(all);
    assert all == all[..m] + all[m..];
    AnnexBRuns.DataAppend(all[..m], all[m..]);
    ReleasedHaveData(ss);
    if FromKey(all) == DecodedAll(units) {
      assert |AnnexBRuns.Data(all[..m])| == 0;
      DataOfSome(all[..m]);
      assert all[m..] == all;
      OnlyAtBoundaries(ss, units);
    }
  }

  ghost predicate HaveData(units: seq<AccessUnit>) {
    forall u :: u in units ==> u.data != []
  }

  lemma DataOfSome(units: seq<AccessUnit>)
    requires HaveData(units)
    ensures units != [] ==> |AnnexBRuns.Data(units)| > 0
  {
    if units != [] {
      assert units[0] in units;
    }
  }

  lemma {:induction false} SplitHasData(s: seq<Byte>)
    ensures HaveData(Split(s).units)
    decreases |s|
  {
    hide Nals, UnitOf, AnnexBRuns.Lead;
    if FirstCut(Nals(s)).Some? {
      AnnexBRuns.SplitStep(s);
      var end := Nals(s)[FirstCut(Nals(s)).value].start;
      assert 0 <= Nals(s)[0].start < end;
      SplitHasData(s[end..]);
      assert Split(s).units == [Split(s).units[0]] + Split(s[end..]).units;
    }
  }

  lemma FlushHasData(rest: seq<Byte>)
    ensures HaveData(AnnexBRuns.Flush(rest).units)
  {
    if HasSlice(Nals(rest)) {
      var unit := AnnexBRuns.Flush(rest).units[0];
      assert Nals(rest)[0].start < |rest|;
      assert |unit.data| == |rest| - Nals(rest)[0].start;
    }
  }

  lemma {:induction false} ReleasedHaveData(ss: seq<seq<Byte>>)
    ensures HaveData(ReleasedAll(ss))
    ensures forall m :: 0 <= m <= |ReleasedAll(ss)| ==> HaveData(ReleasedAll(ss)[..m])
  {
    hide Split, AnnexBRuns.Flush;
    if ss != [] {
      SplitHasData(ss[0]);
      FlushHasData(Split(ss[0]).rest);
      ReleasedHaveData(ss[1..]);
    }
  }
}
