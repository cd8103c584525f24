/**
  Forwarding of H.264 access units in src/screen.rs: the pump of one encoder
  pipeline and the restart loop around it, with counters that survive a respawn.
*/
module H264Pump {
  import opened Common
  import opened AnnexB
  import opened AnnexBReader
  import AnnexBRuns

  /** What the client reads: the handshake line, then video envelopes. */
  datatype Item = Handshake | Video(seqNo: nat, keyFrame: bool, config: bool, payload: seq<Byte>)

  /** One turn of the pump's `select!`. `Request(true)` comes a second or more after the pipeline started. */
  datatype Turn = Read(chunk: seq<Byte>) | IdleTimeout | Request(late: bool) | RequestsClosed | PipeEnd | PipeError | Stop

  datatype Outcome = Finished | KeyFrameRequested | Failed

  predicate Ends(turn: Turn) {
    turn.PipeEnd? || turn.PipeError? || turn.Stop? || turn == Request(true)
  }

  /** How a pipeline ends; when the turns run out, the stop signal arrives. */
  function Verdict(turns: seq<Turn>): Outcome {
    if turns == [] then Finished
    else if turns[0] == Request(true) then KeyFrameRequested
    else if turns[0].PipeError? then Failed
    else if Ends(turns[0]) then Finished
    else Verdict(turns[1..])
  }

  /** What the turns do to the reader. */
  function Consumed(turns: seq<Turn>): seq<AnnexBRuns.Event> {
    if turns == [] || Ends(turns[0]) then []
    else Event(turns[0]) + Consumed(turns[1..])
  }

  function Event(turn: Turn): seq<AnnexBRuns.Event> {
    match turn
    case Read(chunk) => [AnnexBRuns.Read(chunk)]
    case IdleTimeout => [AnnexBRuns.Idle]
    case _ => []
  }

  /** A decoder can only join at a keyframe. */
  function FromKey(units: seq<AccessUnit>): (r: seq<AccessUnit>)
    ensures r != [] ==> r[0].keyFrame
  {
    if units == [] || units[0].keyFrame then units else FromKey(units[1..])
  }

  /** Only the units before the first keyframe are withheld. */
  lemma {:induction false} WithheldUntilKey(units: seq<AccessUnit>) returns (n: nat)
    ensures n <= |units| && FromKey(units) == units[n..]
    ensures forall i :: 0 <= i < n ==> !units[i].keyFrame
  {
    n := 0;
    if units != [] && !units[0].keyFrame {
      n := WithheldUntilKey(units[1..]);
      assert units[1..][n..] == units[n + 1..];
      assert forall i :: 1 <= i < n + 1 ==> units[i] == units[1..][i - 1];
      n := n + 1;
    }
  }

  function Envelopes(unit: AccessUnit, n: nat): seq<Item> {
    match unit.parameterSets
    case None => [Video(n, unit.keyFrame, false, unit.data)]
    case Some(sets) => [Video(n, false, true, sets), Video(n + 1, unit.keyFrame, false, unit.data)]
  }

  function EnvelopesOf(units: seq<AccessUnit>, n: nat): seq<Item> {
    if units == [] then []
    else
      var first := Envelopes(units[0], n);
      first + EnvelopesOf(units[1..], n + |first|)
  }

  /** The envelopes one pipeline is due to send. */
  function DueOf(turns: seq<Turn>, n: nat): seq<Item> {
    EnvelopesOf(FromKey(AnnexBRuns.Run([], Consumed(turns)).units), n)
  }

  /** The envelopes due over all pipelines: a respawn happens only to serve a keyframe request. */
  function Due(pipelines: seq<seq<Turn>>, n: nat): seq<Item> {
    if pipelines == [] then []
    else
      var first := DueOf(pipelines[0], n);
      first + if Verdict(pipelines[0]) == KeyFrameRequested then Due(pipelines[1..], n + |first|) else []
  }

  function Final(pipelines: seq<seq<Turn>>): Outcome {
    if pipelines == [] then Finished
    else if Verdict(pipelines[0]) == KeyFrameRequested then Final(pipelines[1..])
    else Verdict(pipelines[0])
  }

  lemma DueNothing(n: nat)
    ensures Due([], n) == [] && Final([]) == Finished
  {
  }

  lemma DueStep(pipelines: seq<seq<Turn>>, k: nat, n: nat)
    requires k < |pipelines|
    ensures var now, later := DueOf(pipelines[k], n), pipelines[k + 1..];
            Due(pipelines[k..], n) == now + if Verdict(pipelines[k]) == KeyFrameRequested then Due(later, n + |now|) else []
    ensures Final(pipelines[k..]) ==
            if Verdict(pipelines[k]) == KeyFrameRequested then Final(pipelines[k + 1..]) else Verdict(pipelines[k])
  {
    hide DueOf, Verdict;
    assert pipelines[k..][0] == pipelines[k] && pipelines[k..][1..] == pipelines[k + 1..];
  }

  // ---------------------------------------------------------------------
  // How pipelines end, read off their turns
  // ---------------------------------------------------------------------

  /** A keyframe request within a second of the start is ignored, and so is the end of the request channel. */
  predicate GoesOn(turn: Turn) {
    turn.Read? || turn.IdleTimeout? || turn == Request(false) || turn.RequestsClosed?
  }

  /** The turn that ends a pipeline, at `k`; the turns behind it never come. */
  ghost predicate EndsAt(turns: seq<Turn>, k: nat) {
    k < |turns| && !GoesOn(turns[k]) && forall i :: 0 <= i < k ==> GoesOn(turns[i])
  }

  /** The bytes read in these turns. */
  function BytesRead(turns: seq<Turn>): seq<Byte> {
    if turns == [] then [] else (if turns[0].Read? then turns[0].chunk else []) + BytesRead(turns[1..])
  }

  /**
    A pipeline runs until its first read error, end of pipe, stop signal or late keyframe request: an
    error fails it, a late request respawns it, the rest finishes it. What comes later is never read.
  */
  lemma {:induction false} PipelineEnd(turns: seq<Turn>) returns (k: nat)
    ensures k == |turns| || EndsAt(turns, k)
    ensures k <= |turns| && forall i :: 0 <= i < k ==> GoesOn(turns[i])
    ensures k == |turns| ==> Verdict(turns) == Finished
    ensures k < |turns| ==> (Verdict(turns) == Failed <==> turns[k].PipeError?)
                            && (Verdict(turns) == KeyFrameRequested <==> turns[k] == Request(true))
    ensures AnnexBRuns.Input(Consumed(turns)) == BytesRead(turns[..k])
  {
    if turns == [] || !GoesOn(turns[0]) {
      k := 0;
    } else {
      var m := PipelineEnd(turns[1..]);
      k := m + 1;
      assert turns[1..][..m] == turns[..k][1..];
      assert forall i :: 1 <= i < k ==> turns[i] == turns[1..][i - 1];
      BytesOfTurn(turns[0], Consumed(turns[1..]));
      hide AnnexBRuns.Input, Event;
    }
  }

  lemma BytesOfTurn(turn: Turn, later: seq<AnnexBRuns.Event>)
    ensures AnnexBRuns.Input(Event(turn) + later) == (if turn.Read? then turn.chunk else []) + AnnexBRuns.Input(later)
  {
    AnnexBRuns.InputAppend(Event(turn), later);
    if turn.Read? {
      assert [AnnexBRuns.Read(turn.chunk)][1..] == [] && turn.chunk + [] == turn.chunk;
    }
  }

  /** The pipeline ends with a keyframe request a second or more after its start. */
  ghost predicate AsksRespawn(turns: seq<Turn>) {
    exists k: nat :: EndsAt(turns, k) && turns[k] == Request(true)
  }

  ghost predicate Breaks(turns: seq<Turn>) {
    exists k: nat :: EndsAt(turns, k) && turns[k].PipeError?
  }

  lemma VerdictFromTurns(turns: seq<Turn>)
    ensures Verdict(turns) == KeyFrameRequested <==> AsksRespawn(turns)
    ensures Verdict(turns) == Failed <==> Breaks(turns)
  {
    hide Verdict, Consumed, BytesRead, GoesOn;
    var k := PipelineEnd(turns);
    assert forall j: nat :: EndsAt(turns, j) ==> j == k;
  }

  /**
    Of the pipelines on offer the first `m` are started: each one but the last asked for a respawn, the
    last one did not, unless there are no more. Only those count, and a read error of the last one fails all.
  */
  lemma {:induction false} PipelinesUsed(pipelines: seq<seq<Turn>>, n: nat) returns (m: nat)
    ensures m <= |pipelines| && (m == 0 <==> pipelines == [])
    ensures forall i :: 0 <= i < m - 1 ==> AsksRespawn(pipelines[i])
    ensures m < |pipelines| ==> !AsksRespawn(pipelines[m - 1])
    ensures Due(pipelines, n) == Due(pipelines[..m], n)
    ensures Final(pipelines) == Failed <==> m > 0 && Breaks(pipelines[m - 1])
  {
    hide *;
    if pipelines == [] {
      m := 0;
      DueNothing(n);
      assert pipelines[..0] == [];
    } else {
      VerdictFromTurns(pipelines[0]);
      if Verdict(pipelines[0]) == KeyFrameRequested && |pipelines| > 1 {
        var later := PipelinesUsed(pipelines[1..], n + |DueOf(pipelines[0], n)|);
        m := later + 1;
        DueBehind(pipelines, m, n);
        FinalBehind(pipelines);
        assert forall i :: 0 < i < m ==> pipelines[i] == pipelines[1..][i - 1];
      } else {
        m := 1;
        DueBehind(pipelines, 1, n);
        FinalBehind(pipelines);
        DueNothing(n + |DueOf(pipelines[0], n)|);
        assert pipelines[1..][..0] == [] && (|pipelines| == 1 ==> pipelines[1..] == []);
      }
    }
  }

  /** What is due behind the first pipeline decides what is due. */
  lemma DueBehind(pipelines: seq<seq<Turn>>, m: nat, n: nat)
    requires 0 < m <= |pipelines|
    ensures var next := n + |DueOf(pipelines[0], n)|;
            Verdict(pipelines[0]) != KeyFrameRequested || Due(pipelines[1..], next) == Due(pipelines[1..][..m - 1], next) ==>
              Due(pipelines, n) == Due(pipelines[..m], n)
  {
    hide DueOf, Verdict;
    assert pipelines[..m][1..] == pipelines[1..][..m - 1];
  }

  lemma FinalBehind(pipelines: seq<seq<Turn>>)
    requires pipelines != []
    ensures Final(pipelines) ==
            if Verdict(pipelines[0]) == KeyFrameRequested then Final(pipelines[1..]) else Verdict(pipelines[0])
  {
    hide Verdict;
  }

  /** The handshake line goes out just before the first envelope. */
  function Opened(magicSent: bool, due: seq<Item>): seq<Item> {
    if magicSent || due == [] then due else [Handshake] + due
  }

  // ---------------------------------------------------------------------
  // What the client can rely on
  // ---------------------------------------------------------------------

  /** Sequence numbers count up by one from `n`, and no handshake line is among them. */
  ghost predicate Numbered(items: seq<Item>, n: nat) {
    forall i :: 0 <= i < |items| ==> items[i].Video? && items[i].seqNo == n + i
  }

  lemma {:induction false} EnvelopesNumbered(units: seq<AccessUnit>, n: nat)
    ensures Numbered(EnvelopesOf(units, n), n)
  {
    if units != [] {
      EnvelopesNumbered(units[1..], n + |Envelopes(units[0], n)|);
    }
  }

  /** Over any number of encoder respawns, no sequence number is skipped or used twice. */
  lemma {:induction false} DueNumbered(pipelines: seq<seq<Turn>>, n: nat)
    ensures Numbered(Due(pipelines, n), n)
  {
    hide FromKey, EnvelopesOf, AnnexBRuns.Run, Consumed, Verdict;
    if pipelines != [] {
      EnvelopesNumbered(FromKey(AnnexBRuns.Run([], Consumed(pipelines[0])).units), n);
      DueNumbered(pipelines[1..], n + |DueOf(pipelines[0], n)|);
    }
  }

  /** What a client makes of the envelopes: a config envelope belongs to the frame right behind it. */
  function Reassemble(items: seq<Item>): seq<AccessUnit> {
    if items == [] then []
    else if items[0].Handshake? then Reassemble(items[1..])
    else if !items[0].config then
      [AccessUnit(items[0].payload, items[0].keyFrame, None)] + Reassemble(items[1..])
    else if |items| > 1 && items[1].Video? && !items[1].config then
      [AccessUnit(items[1].payload, items[1].keyFrame, Some(items[0].payload))] + Reassemble(items[2..])
    else Reassemble(items[1..])
  }

  lemma ReassembleFirst(unit: AccessUnit, n: nat, more: seq<Item>)
    ensures Reassemble(Envelopes(unit, n) + more) == [unit] + Reassemble(more)
  {
    var items := Envelopes(unit, n) + more;
    if unit.parameterSets.Some? {
      assert items[2..] == more;
    } else {
      assert items[1..] == more;
    }
  }

  /** Data, key flag and parameter sets of every unit come back, each config right before its frame. */
  lemma {:induction false} ReassembleEnvelopes(units: seq<AccessUnit>, n: nat, more: seq<Item>)
    ensures Reassemble(EnvelopesOf(units, n) + more) == units + Reassemble(more)
  {
    hide Reassemble, Envelopes;
    if units == [] {
      assert EnvelopesOf(units, n) + more == more;
    } else {
      var first := Envelopes(units[0], n);
      var rest := EnvelopesOf(units[1..], n + |first|);
      assert EnvelopesOf(units, n) + more == first + (rest + more);
      ReassembleFirst(units[0], n, rest + more);
      ReassembleEnvelopes(units[1..], n + |first|, more);
      assert [units[0]] + (units[1..] + Reassemble(more)) == units + Reassemble(more);
    }
  }

  /** The units the pipelines forward: each one's units from its first keyframe on. */
  function Forwarded(pipelines: seq<seq<Turn>>): seq<AccessUnit> {
    if pipelines == [] then []
    else
      FromKey(AnnexBRuns.Run([], Consumed(pipelines[0])).units) +
      if Verdict(pipelines[0]) == KeyFrameRequested then Forwarded(pipelines[1..]) else []
  }

  lemma {:induction false} DueForwards(pipelines: seq<seq<Turn>>, n: nat)
    ensures Reassemble(Due(pipelines, n)) == Forwarded(pipelines)
  {
    hide Reassemble, EnvelopesOf, FromKey, AnnexBRuns.Run, Consumed, Verdict;
    if pipelines == [] {
      ReassembleNothing();
    } else {
      var units := FromKey(AnnexBRuns.Run([], Consumed(pipelines[0])).units);
      var first := EnvelopesOf(units, n);
      var more := if Verdict(pipelines[0]) == KeyFrameRequested then Due(pipelines[1..], n + |first|) else [];
      assert Due(pipelines, n) == first + more;
      ReassembleEnvelopes(units, n, more);
      hide Due;
      if Verdict(pipelines[0]) == KeyFrameRequested {
        DueForwards(pipelines[1..], n + |first|);
      } else {
        ReassembleNothing();
      }
    }
  }

  lemma ReassembleNothing()
    ensures Reassemble([]) == []
  {
  }

  /** A client cut off after any number of items still gets a prefix of the units, whole ones only. */
  lemma {:induction false} ReassemblePrefix(units: seq<AccessUnit>, n: nat, k: nat)
    requires k <= |EnvelopesOf(units, n)|
    ensures Reassemble(EnvelopesOf(units, n)[..k]) <= units
    decreases |units|
  {
    hide Envelopes, Reassemble;
    ReassembleNothing();
    if units != [] {
      var first := Envelopes(units[0], n);
      var rest := EnvelopesOf(units[1..], n + |first|);
      if k < |first| {
        CutEnvelope(units[0], n, k);
        assert EnvelopesOf(units, n)[..k] == first[..k];
      } else {
        ReassemblePrefix(units[1..], n + |first|, k - |first|);
        ReassembleFirst(units[0], n, rest[..k - |first|]);
        assert EnvelopesOf(units, n)[..k] == first + rest[..k - |first|];
      }
    }
  }

  lemma CutEnvelope(unit: AccessUnit, n: nat, k: nat)
    requires k < |Envelopes(unit, n)|
    ensures Reassemble(Envelopes(unit, n)[..k]) == []
  {
    var cut := Envelopes(unit, n)[..k];
    if k == 1 {
      assert cut[1..] == [];
    }
  }

  /** In every pipeline the first frame sent is a keyframe, with its parameter sets, if any, right before it. */
  lemma OpensOnKeyFrame(turns: seq<Turn>, n: nat)
    requires DueOf(turns, n) != []
    ensures var due := DueOf(turns, n);
            if due[0].config then |due| > 1 && due[1].Video? && !due[1].config && due[1].keyFrame
            else due[0].Video? && due[0].keyFrame
  {
    hide AnnexBRuns.Run, Consumed, FromKey;
    EnvelopesNumbered(FromKey(AnnexBRuns.Run([], Consumed(turns)).units), n);
  }

  // ---------------------------------------------------------------------
  // One turn of the pump
  // ---------------------------------------------------------------------

  function Kept(waiting: bool, units: seq<AccessUnit>): seq<AccessUnit> {
    if waiting then FromKey(units) else units
  }

  /** The envelopes still due from the pump's state: the reader's bytes, the keyframe flag and the counter. */
  function Pending(waiting: bool, rest: seq<Byte>, turns: seq<Turn>, n: nat): seq<Item> {
    EnvelopesOf(Kept(waiting, AnnexBRuns.Run(rest, Consumed(turns)).units), n)
  }

  lemma KeptStep(waiting: bool, units: seq<AccessUnit>, n: nat)
    requires units != []
    ensures var skip := waiting && !units[0].keyFrame;
            && (Kept(waiting, units) == if skip then Kept(true, units[1..]) else [units[0]] + units[1..])
            && (!skip ==> EnvelopesOf(Kept(waiting, units), n) ==
                          Envelopes(units[0], n) + EnvelopesOf(Kept(false, units[1..]), n + |Envelopes(units[0], n)|))
  {
    hide Envelopes;
  }

  lemma KeptNothing(waiting: bool, n: nat)
    ensures Kept(waiting, []) == [] && EnvelopesOf(Kept(waiting, []), n) == []
  {
  }

  lemma {:induction false} FromKeyAppend(a: seq<AccessUnit>, b: seq<AccessUnit>)
    ensures FromKey(a + b) == if FromKey(a) == [] then FromKey(b) else FromKey(a) + b
  {
    if a == [] {
      assert a + b == b;
    } else if !a[0].keyFrame {
      assert (a + b)[1..] == a[1..] + b;
      FromKeyAppend(a[1..], b);
    }
  }

  lemma {:induction false} EnvelopesAppend(a: seq<AccessUnit>, b: seq<AccessUnit>, n: nat)
    ensures EnvelopesOf(a + b, n) == EnvelopesOf(a, n) + EnvelopesOf(b, n + |EnvelopesOf(a, n)|)
  {
    hide Envelopes;
    if a == [] {
      assert a + b == b;
    } else {
      assert (a + b)[1..] == a[1..] + b;
      EnvelopesAppend(a[1..], b, n + |Envelopes(a[0], n)|);
    }
  }

  /** Over all pipelines the envelopes due are those of the units forwarded, numbered through. */
  lemma {:induction false} DueIsEnvelopes(pipelines: seq<seq<Turn>>, n: nat)
    ensures Due(pipelines, n) == EnvelopesOf(Forwarded(pipelines), n)
  {
    hide EnvelopesOf, FromKey, AnnexBRuns.Run, Consumed, Verdict;
    if pipelines == [] {
      NoEnvelopes(n);
    } else {
      var units := FromKey(AnnexBRuns.Run([], Consumed(pipelines[0])).units);
      var first := EnvelopesOf(units, n);
      if Verdict(pipelines[0]) == KeyFrameRequested {
        DueIsEnvelopes(pipelines[1..], n + |first|);
        EnvelopesAppend(units, Forwarded(pipelines[1..]), n);
      } else {
        assert units + [] == units && first + [] == first;
      }
    }
  }

  lemma NoEnvelopes(n: nat)
    ensures EnvelopesOf([], n) == []
  {
  }

  lemma PendingStep(waiting: bool, rest: seq<Byte>, turns: seq<Turn>, n: nat)
    requires turns != [] && !Ends(turns[0])
    ensures var p := AnnexBRuns.Run(rest, Event(turns[0]));
            var now := EnvelopesOf(Kept(waiting, p.units), n);
            Pending(waiting, rest, turns, n) ==
            now + Pending(waiting && Kept(waiting, p.units) == [], p.rest, turns[1..], n + |now|)
  {
    hide EnvelopesOf, AnnexBRuns.Run, Event, FromKey;
    var p := AnnexBRuns.Run(rest, Event(turns[0]));
    var later := AnnexBRuns.Run(p.rest, Consumed(turns[1..])).units;
    AnnexBRuns.RunAppend(rest, Event(turns[0]), Consumed(turns[1..]));
    FromKeyAppend(p.units, later);
    EnvelopesAppend(Kept(waiting, p.units), Kept(waiting && Kept(waiting, p.units) == [], later), n);
    if waiting && FromKey(p.units) == [] {
      assert [] + FromKey(later) == FromKey(later);
    }
  }

  lemma PendingNothing(waiting: bool, rest: seq<Byte>, turns: seq<Turn>, n: nat)
    requires turns == [] || Ends(turns[0])
    ensures Pending(waiting, rest, turns, n) == []
  {
  }

  lemma DueIsPending(turns: seq<Turn>, n: nat)
    ensures DueOf(turns, n) == Pending(true, [], turns, n)
  {
    hide EnvelopesOf, AnnexBRuns.Run, FromKey;
  }

  lemma EventRun(rest: seq<Byte>, turn: Turn)
    ensures AnnexBRuns.Run(rest, Event(turn)) ==
            if Event(turn) == [] then Pieces([], rest)
            else var e := AnnexBRuns.Step(rest, Event(turn)[0]); Pieces(e.units, e.rest)
  {
    hide AnnexBRuns.Step;
    if Event(turn) != [] {
      var e := AnnexBRuns.Step(rest, Event(turn)[0]);
      assert AnnexBRuns.Run(e.rest, []) == Pieces([], e.rest);
      assert e.units + [] == e.units;
    }
  }

  // ---------------------------------------------------------------------
  // The pump
  // ---------------------------------------------------------------------

  /** `items` were written up to the socket's budget; `ok` says that all of them were. */
  ghost predicate Wrote(before: seq<Item>, accepts: nat, items: seq<Item>, after: seq<Item>, ok: bool) {
    && ok == (|items| <= accepts)
    && after == before + if ok then items else items[..accepts]
  }

  lemma WroteMore(before: seq<Item>, accepts: nat, a: seq<Item>, b: seq<Item>, mid: seq<Item>, after: seq<Item>, ok: bool)
    requires Wrote(before, accepts, a, mid, true) && Wrote(mid, accepts - |a|, b, after, ok)
    ensures Wrote(before, accepts, a + b, after, ok)
  {
    if !ok {
      assert (a + b)[..accepts] == a + b[..accepts - |a|];
    }
  }

  lemma WroteLess(before: seq<Item>, accepts: nat, a: seq<Item>, b: seq<Item>, after: seq<Item>)
    requires Wrote(before, accepts, a, after, false)
    ensures Wrote(before, accepts, a + b, after, false)
  {
    assert (a + b)[..accepts] == a[..accepts];
  }

  lemma OpenedMore(magicSent: bool, a: seq<Item>, b: seq<Item>)
    ensures Opened(magicSent, a + b) == Opened(magicSent, a) + Opened(magicSent || a != [], b)
  {
    if a == [] {
      assert a + b == b;
    }
  }

  lemma WroteSize(before: seq<Item>, accepts: nat, items: seq<Item>, after: seq<Item>)
    requires Wrote(before, accepts, items, after, true)
    ensures |after| == |before| + |items| && |items| <= accepts
  {
  }

  datatype Progress = Progress(magicSent: bool, seqNo: nat, frames: nat, sent: seq<Item>, accepts: nat)

  /** The counters and the wire after the envelopes `due`, as far as the socket took them. */
  ghost predicate Sends(a: Progress, due: seq<Item>, b: Progress, ok: bool) {
    && Wrote(a.sent, a.accepts, Opened(a.magicSent, due), b.sent, ok)
    && |b.sent| + b.accepts == |a.sent| + a.accepts
    && b.seqNo - a.seqNo == b.frames - a.frames
    && (ok ==> b.seqNo == a.seqNo + |due| && b.magicSent == (a.magicSent || due != []))
  }

  lemma SendsNothing(a: Progress)
    ensures Sends(a, [], a, true)
  {
  }

  lemma SendsAll(a: Progress, x: seq<Item>, b: Progress)
    requires Sends(a, x, b, true)
    ensures |Opened(a.magicSent, x)| <= a.accepts && b.seqNo == a.seqNo + |x|
  {
  }

  lemma SendsCut(a: Progress, x: seq<Item>, b: Progress)
    requires Sends(a, x, b, false)
    ensures |Opened(a.magicSent, x)| > a.accepts
  {
  }

  lemma SendsMore(a: Progress, x: seq<Item>, b: Progress, y: seq<Item>, c: Progress, ok: bool)
    requires Sends(a, x, b, true) && Sends(b, y, c, ok)
    ensures Sends(a, x + y, c, ok)
  {
    hide Wrote, Opened;
    OpenedMore(a.magicSent, x, y);
    WroteSize(a.sent, a.accepts, Opened(a.magicSent, x), b.sent);
    WroteMore(a.sent, a.accepts, Opened(a.magicSent, x), Opened(b.magicSent, y), b.sent, c.sent, ok);
  }

  lemma SendsLess(a: Progress, x: seq<Item>, y: seq<Item>, b: Progress)
    requires Sends(a, x, b, false)
    ensures Sends(a, x + y, b, false)
  {
    hide Wrote, Opened;
    OpenedMore(a.magicSent, x, y);
    WroteLess(a.sent, a.accepts, Opened(a.magicSent, x), Opened(a.magicSent || x != [], y), b.sent);
  }

  /** As much of `items` as the socket takes. */
  function UpTo(items: seq<Item>, accepts: nat): seq<Item> {
    if |items| <= accepts then items else items[..accepts]
  }

  /** The wire after a run, from any state of the producer. */
  lemma OnTheWire(a: Progress, due: seq<Item>, b: Progress, ok: bool)
    requires Sends(a, due, b, ok)
    ensures b.sent == a.sent + UpTo((if a.magicSent || due == [] then [] else [Handshake]) + due, a.accepts)
  {
    assert [] + due == due;
  }

  /**
    A producer that has sent nothing yet sends the handshake line, once and before everything else, and
    then a prefix of the envelopes due, all of them when all went out; later on it sends envelopes only.
  */
  lemma HandshakeFirst(a: Progress, due: seq<Item>, b: Progress, ok: bool, n: nat)
    requires Sends(a, due, b, ok) && Numbered(due, n)
    ensures !a.magicSent && a.sent == [] ==>
              || b.sent == []
              || (b.sent[0] == Handshake && b.sent[1..] <= due && forall i :: 1 <= i < |b.sent| ==> b.sent[i].Video?)
    ensures !a.magicSent && a.sent == [] && ok ==> b.sent == if due == [] then [] else [Handshake] + due
    ensures a.magicSent ==> a.sent <= b.sent && b.sent[|a.sent|..] <= due && (ok ==> b.sent == a.sent + due)
    ensures a.magicSent ==> forall i :: |a.sent| <= i < |b.sent| ==> b.sent[i].Video?
  {
    OnTheWire(a, due, b, ok);
    if ok {
      SendsAll(a, due, b);
    }
    FirstOf(due, a.accepts);
    hide Sends, Wrote;
    if a.magicSent {
      assert [] + due == due;
      assert b.sent[|a.sent|..] == UpTo(due, a.accepts);
    } else if a.sent == [] && due != [] {
      FirstBehindLine(due, a.accepts);
      assert [] + UpTo([Handshake] + due, a.accepts) == UpTo([Handshake] + due, a.accepts);
    }
  }

  lemma FirstOf(due: seq<Item>, accepts: nat)
    ensures UpTo(due, accepts) <= due
  {
  }

  lemma FirstBehindLine(due: seq<Item>, accepts: nat)
    ensures var s := UpTo([Handshake] + due, accepts); s == [] || (s[0] == Handshake && s[1..] <= due)
  {
    if 0 < accepts <= |due| {
      assert ([Handshake] + due)[..accepts][1..] == due[..accepts - 1];
    } else {
      assert ([Handshake] + due)[1..] == due;
    }
  }

  /** The whole producer: its client reads the handshake line and then whole units, all of them when all went out. */
  lemma ClientReads(a: Progress, pipelines: seq<seq<Turn>>, b: Progress, ok: bool)
    requires !a.magicSent && a.sent == [] && Sends(a, Due(pipelines, a.seqNo), b, ok)
    ensures b.sent != [] ==> b.sent[0] == Handshake
    ensures Reassemble(b.sent) <= Forwarded(pipelines) && (ok ==> Reassemble(b.sent) == Forwarded(pipelines))
  {
    hide Due, Sends, Reassemble, Forwarded, EnvelopesOf;
    var due := Due(pipelines, a.seqNo);
    DueNumbered(pipelines, a.seqNo);
    HandshakeFirst(a, due, b, ok, a.seqNo);
    DueIsEnvelopes(pipelines, a.seqNo);
    DueForwards(pipelines, a.seqNo);
    ReassembleNothing();
    if b.sent != [] {
      var k := |b.sent| - 1;
      assert b.sent[1..] == due[..k];
      ReassemblePrefix(Forwarded(pipelines), a.seqNo, k);
      ReassembleLine(b.sent);
      assert due[..|due|] == due && ([Handshake] + due)[1..] == due;
    }
  }

  lemma ReassembleLine(items: seq<Item>)
    requires items != [] && items[0] == Handshake
    ensures Reassemble(items) == Reassemble(items[1..])
  {
  }

  class Producer {
    var magicSent: bool
    var seqNo: nat
    var frames: nat
    /** What has been written, and how many more writes the client takes before it stalls. */
    var sent: seq<Item>
    var accepts: nat

    constructor (accepts: nat)
      ensures !magicSent && seqNo == frames == 0 && sent == [] && this.accepts == accepts
    {
      magicSent, seqNo, frames, sent, this.accepts := false, 0, 0, [], accepts;
    }

    function View(): Progress
      reads this
    {
      Progress(magicSent, seqNo, frames, sent, accepts)
    }

    method Write(item: Item) returns (ok: bool)
      modifies this`sent, this`accepts
      ensures Wrote(old(sent), old(accepts), [item], sent, ok)
      ensures |sent| + accepts == old(|sent| + accepts)
    {
      if accepts == 0 {
        assert [item][..0] == [];
        return false;
      }
      sent, accepts := sent + [item], accepts - 1;
      return true;
    }

    method SendMagic() returns (ok: bool)
      modifies this`magicSent, this`sent, this`accepts
      ensures Wrote(old(sent), old(accepts), if old(magicSent) then [] else [Handshake], sent, ok)
      ensures |sent| + accepts == old(|sent| + accepts) && (ok ==> magicSent)
    {
      ok := true;
      if !magicSent {
        ok := Write(Handshake);
        magicSent := ok;
      }
    }

    method SendFrame(payload: seq<Byte>, keyFrame: bool, config: bool) returns (ok: bool)
      modifies this`seqNo, this`frames, this`sent, this`accepts
      ensures Wrote(old(sent), old(accepts), [Video(old(seqNo), keyFrame, config, payload)], sent, ok)
      ensures |sent| + accepts == old(|sent| + accepts)
      ensures seqNo - old(seqNo) == frames - old(frames) == if ok then 1 else 0
    {
      ok := Write(Video(seqNo, keyFrame, config, payload));
      if ok {
        seqNo, frames := seqNo + 1, frames + 1;
      }
    }

    method SendFrames(unit: AccessUnit) returns (ok: bool)
      modifies this`seqNo, this`frames, this`sent, this`accepts
      ensures Wrote(old(sent), old(accepts), Envelopes(unit, old(seqNo)), sent, ok)
      ensures |sent| + accepts == old(|sent| + accepts)
      ensures seqNo - old(seqNo) == frames - old(frames)
      ensures ok ==> seqNo == old(seqNo) + |Envelopes(unit, old(seqNo))|
    {
      hide Wrote;
      ghost var due := Envelopes(unit, seqNo);
      if unit.parameterSets.Some? {
        assert due == due[..1] + due[1..];
        ok := SendFrame(unit.parameterSets.value, false, true);
        if !ok {
          WroteLess(old(sent), old(accepts), due[..1], due[1..], sent);
          return;
        }
        WroteSize(old(sent), old(accepts), due[..1], sent);
        ghost var mid := sent;
        ok := SendFrame(unit.data, unit.keyFrame, false);
        WroteMore(old(sent), old(accepts), due[..1], due[1..], mid, sent, ok);
      } else {
        ok := SendFrame(unit.data, unit.keyFrame, false);
      }
    }

    method SendUnit(unit: AccessUnit) returns (ok: bool)
      modifies this
      ensures Sends(old(View()), Envelopes(unit, old(seqNo)), View(), ok)
      ensures sent == old(sent) +
                      UpTo((if old(magicSent) then [] else [Handshake]) + Envelopes(unit, old(seqNo)), old(accepts))
    {
      hide Wrote;
      ghost var due := Envelopes(unit, seqNo);
      ghost var line := if magicSent then [] else [Handshake];
      assert Opened(magicSent, due) == line + due;
      ok := SendMagic();
      if !ok {
        WroteLess(old(sent), old(accepts), line, due, sent);
        return;
      }
      WroteSize(old(sent), old(accepts), line, sent);
      ghost var mid := sent;
      ok := SendFrames(unit);
      WroteMore(old(sent), old(accepts), line, due, mid, sent, ok);
    }

    /** The forwarding loop; `waiting` says that the pipeline's first keyframe is still to come. */
    method Forward(units: seq<AccessUnit>, waiting: bool) returns (ok: bool, stillWaiting: bool)
      modifies this
      ensures var kept := Kept(waiting, units);
              Sends(old(View()), EnvelopesOf(kept, old(seqNo)), View(), ok) && (ok ==> stillWaiting == (waiting && kept == []))
    {
      hide Wrote, Opened, Sends, UpTo, Kept, FromKey, EnvelopesOf, Envelopes;
      ghost var due := EnvelopesOf(Kept(waiting, units), seqNo);
      ghost var done := [];
      stillWaiting := waiting;
      SendsNothing(View());
      assert units[0..] == units;
      for index := 0 to |units|
        invariant Sends(old(View()), done, View(), true)
        invariant due == done + EnvelopesOf(Kept(stillWaiting, units[index..]), seqNo)
        invariant if stillWaiting then waiting && Kept(waiting, units) == Kept(true, units[index..])
                  else waiting ==> Kept(waiting, units) != []
      {
        assert units[index..][0] == units[index] && units[index..][1..] == units[index + 1..];
        KeptStep(stillWaiting, units[index..], seqNo);
        if stillWaiting {
          if !units[index].keyFrame {
            continue;
          }
          stillWaiting := false;
        }
        ghost var mid, now := View(), Envelopes(units[index], seqNo);
        ghost var later := EnvelopesOf(Kept(false, units[index + 1..]), seqNo + |now|);
        assert due == done + now + later;
        ok := SendUnit(units[index]);
        SendsMore(old(View()), done, mid, now, View(), ok);
        if !ok {
          SendsLess(old(View()), done + now, later, View());
          return;
        }
        SendsAll(mid, now, View());
        done := done + now;
      }
      KeptNothing(stillWaiting, seqNo);
      assert units[|units|..] == [] && due == done;
      ok := true;
    }

    /** The reader's share of one turn. */
    static method Pull(reader: AnnexBStreamReader, turn: Turn) returns (units: seq<AccessUnit>)
      requires reader.Valid()
      modifies reader
      ensures reader.Valid() && Pieces(units, reader.buffer) == AnnexBRuns.Run(old(reader.buffer), Event(turn))
    {
      hide AnnexBRuns.Run, AnnexBRuns.Push, AnnexBRuns.Flush;
      EventRun(reader.buffer, turn);
      units := [];
      if turn.Read? {
        units := reader.Push(turn.chunk);
      } else if turn.IdleTimeout? {
        var unit := reader.FlushPending();
        units := if unit.Some? then [unit.value] else [];
      }
    }

    /** `pump_h264_stream`: one encoder pipeline, from a fresh reader to its end. */
    method PumpH264Stream(turns: seq<Turn>) returns (outcome: Outcome)
      modifies this
      ensures var due := DueOf(turns, old(seqNo));
              && Sends(old(View()), due, View(), |Opened(old(magicSent), due)| <= old(accepts))
              && sent == old(sent) + UpTo((if old(magicSent) || due == [] then [] else [Handshake]) + due, old(accepts))
              && outcome == if |Opened(old(magicSent), due)| <= old(accepts) then Verdict(turns) else Failed
    {
      hide Wrote, Opened, UpTo, EnvelopesOf, Kept, FromKey, Pending, DueOf, Consumed;
      hide AnnexBRuns.Run, AnnexBStreamReader.Valid, Event;
      ghost var due := DueOf(turns, seqNo);
      ghost var done := [];
      var reader := new AnnexBStreamReader();
      var waiting := true;
      SendsNothing(View());
      assert turns[0..] == turns;
      assert due == Pending(waiting, [], turns, seqNo) by { DueIsPending(turns, seqNo); }
      for index := 0 to |turns|
        invariant fresh(reader) && reader.Valid()
        invariant Sends(old(View()), done, View(), true)
        invariant Verdict(turns) == Verdict(turns[index..])
        invariant due == done + Pending(waiting, reader.buffer, turns[index..], seqNo)
      {
        var turn := turns[index];
        assert turns[index..][0] == turn && turns[index..][1..] == turns[index + 1..];
        if Ends(turn) {
          PendingNothing(waiting, reader.buffer, turns[index..], seqNo);
          assert due == done;
          SendsAll(old(View()), done, View());
          OnTheWire(old(View()), due, View(), true);
          return Verdict([turn]);
        }
        PendingStep(waiting, reader.buffer, turns[index..], seqNo);
        var units := Pull(reader, turn);
        ghost var mid, now := View(), EnvelopesOf(Kept(waiting, units), seqNo);
        ghost var later := Pending(waiting && Kept(waiting, units) == [], reader.buffer, turns[index + 1..], seqNo + |now|);
        assert due == done + now + later;
        var ok;
        ok, waiting := Forward(units, waiting);
        SendsMore(old(View()), done, mid, now, View(), ok);
        if !ok {
          SendsLess(old(View()), done + now, later, View());
          SendsCut(old(View()), due, View());
          OnTheWire(old(View()), due, View(), false);
          return Failed;
        }
        done := done + now;
      }
      PendingNothing(waiting, reader.buffer, [], seqNo);
      assert turns[|turns|..] == [] && due == done;
      SendsAll(old(View()), done, View());
      OnTheWire(old(View()), due, View(), true);
      outcome := Finished;
    }

    /**
      The restart loop: a fresh pipeline per keyframe request, one set of counters.
      A stream that never sent a frame counts as failed, so the next capture method is tried.
    */
    method RunPortalStream(pipelines: seq<seq<Turn>>) returns (ok: bool)
      modifies this
      ensures var due := Due(pipelines, old(seqNo));
              var whole := |Opened(old(magicSent), due)| <= old(accepts);
              && Sends(old(View()), due, View(), whole)
              && sent == old(sent) + UpTo((if old(magicSent) || due == [] then [] else [Handshake]) + due, old(accepts))
              && (ok <==> whole && Final(pipelines) == Finished && frames > 0)
    {
      hide Wrote, Opened, UpTo, Due, DueOf, Final, Sends, Verdict;
      ghost var due := Due(pipelines, seqNo);
      ghost var done := [];
      SendsNothing(View());
      assert pipelines[0..] == pipelines;
      for index := 0 to |pipelines|
        invariant Sends(old(View()), done, View(), true)
        invariant due == done + Due(pipelines[index..], seqNo)
        invariant Final(pipelines) == Final(pipelines[index..])
      {
        DueStep(pipelines, index, seqNo);
        ghost var mid, now := View(), DueOf(pipelines[index], seqNo);
        ghost var later :=
          if Verdict(pipelines[index]) == KeyFrameRequested then Due(pipelines[index + 1..], seqNo + |now|) else [];
        assert due == done + now + later;
        var outcome := PumpH264Stream(pipelines[index]);
        ghost var whole := |Opened(mid.magicSent, now)| <= mid.accepts;
        SendsMore(old(View()), done, mid, now, View(), whole);
        if outcome != KeyFrameRequested {
          if whole {
            assert due == done + now;
            SendsAll(old(View()), done + now, View());
          } else {
            SendsLess(old(View()), done + now, later, View());
            SendsCut(old(View()), due, View());
          }
          OnTheWire(old(View()), due, View(), whole);
          return outcome == Finished && frames > 0;
        }
        SendsAll(mid, now, View());
        done := done + now;
      }
      DueNothing(seqNo);
      assert pipelines[|pipelines|..] == [] && due == done;
      SendsAll(old(View()), done, View());
      OnTheWire(old(View()), due, View(), true);
      ok := frames > 0;
    }
  }
}
