/**
  The audio pump of src/audio.rs: batches from the RTP reader, the drop rules, the
  envelope counter that survives restarts, and the bounded restart loop.
*/
module AudioPump {
  import opened Common
  import RtpStream

  const MAX_PACKETS_PER_BATCH: nat := 8
  const RESTART_ATTEMPTS: nat := 3

  /** What becomes of one packet: held back by the mute flag or the closed stream, written, lock busy, write failed. */
  datatype Fate = Gated | Written | Busy | Broken

  datatype Answer = Accepted | LockBusy | WriteFailed

  /** What a packet meets when its turn comes: the mute flag, whether the handshake is sent, the socket's answer. */
  datatype Moment = Moment(muted: bool, handshakeSent: bool, answer: Answer) {
    predicate Closed() {
      muted || !handshakeSent
    }

    function Fate(): Fate {
      if Closed() then Gated
      else
        match answer
        case Accepted => Written
        case LockBusy => Busy
        case WriteFailed => Broken
    }
  }

  datatype Turn = Read(chunk: seq<Byte>, moments: seq<Moment>) | Stop | PipeEnd | PipeError

  datatype Outcome = Stopped | SocketClosed | ProducerEnded | Failed

  datatype Envelope = Envelope(seqNo: nat, packet: seq<Byte>)

  /**
    The counters and the wire. `returned` are all packets the reader handed over, `lost` counts
    those abandoned when a write failed.
  */
  datatype Audio = Audio(seqNo: nat, sent: nat, dropped: nat, wire: seq<Envelope>, returned: seq<seq<Byte>>, lost: nat)

  const SILENT: Audio := Audio(0, 0, 0, [], [], 0)

  function StalePacketCount(available: nat, maxBatch: nat): nat {
    var limit := if maxBatch < 1 then 1 else maxBatch;
    if available <= limit then 0 else available - limit
  }

  /** When the moments run out, the stream is muted. */
  function FateOf(moments: seq<Moment>): Fate {
    if moments == [] then Gated else moments[0].Fate()
  }

  function Later(moments: seq<Moment>): seq<Moment> {
    if moments == [] then [] else moments[1..]
  }

  /** The packets one after the other, until a write fails. */
  function SendAll(s: Audio, kept: seq<seq<Byte>>, moments: seq<Moment>): (Audio, bool)
    decreases |kept|
  {
    if kept == [] then (s, true)
    else
      match FateOf(moments)
      case Written => SendAll(Put(s, kept[0]), kept[1..], Later(moments))
      case Broken => (Audio(s.seqNo, s.sent, s.dropped, s.wire, s.returned, s.lost + |kept|), false)
      case _ => SendAll(Drop(s, 1), kept[1..], Later(moments))
  }

  function Put(s: Audio, packet: seq<Byte>): Audio {
    Audio(s.seqNo + 1, s.sent + 1, s.dropped, s.wire + [Envelope(s.seqNo, packet)], s.returned, s.lost)
  }

  function Drop(s: Audio, n: nat): Audio {
    Audio(s.seqNo, s.sent, s.dropped + n, s.wire, s.returned, s.lost)
  }

  function Receive(s: Audio, packets: seq<seq<Byte>>): Audio {
    Audio(s.seqNo, s.sent, s.dropped, s.wire, s.returned + packets, s.lost)
  }

  function Batch(s: Audio, packets: seq<seq<Byte>>, moments: seq<Moment>): (Audio, bool) {
    var stale := StalePacketCount(|packets|, MAX_PACKETS_PER_BATCH);
    SendAll(Drop(Receive(s, packets), stale), packets[stale..], moments)
  }

  /** One encoder pipeline; when the turns run out, the stop signal arrives. */
  function Pump(s: Audio, rest: seq<Byte>, turns: seq<Turn>): (Audio, Outcome)
    decreases |turns|
  {
    if turns == [] then (s, Stopped)
    else
      match turns[0]
      case Stop => (s, Stopped)
      case PipeEnd => (s, ProducerEnded)
      case PipeError => (s, Failed)
      case Read(chunk, moments) =>
        var f := RtpStream.Frames(rest + chunk);
        if f.bad then (s, Failed)
        else
          var (s', ok) := Batch(s, f.packets, moments);
          if ok then Pump(s', f.rest, turns[1..]) else (s', SocketClosed)
  }

  /**
    One round of the restart loop: was stop signalled, was a monitor found, did the pipeline start,
    was stop signalled in the pause.
  */
  datatype Attempt = Attempt(stopped: bool, monitor: bool, spawns: bool, turns: seq<Turn>, stoppedInPause: bool)

  function Try(s: Audio, a: Attempt): (Audio, Outcome) {
    if a.spawns then Pump(s, [], a.turns) else (s, Failed)
  }

  predicate GivesUp(outcome: Outcome, attempt: nat) {
    outcome.Stopped? || outcome.SocketClosed? || attempt >= RESTART_ATTEMPTS
  }

  function Serve(s: Audio, attempts: seq<Attempt>, attempt: nat): Audio
    decreases |attempts|
  {
    if attempts == [] || attempts[0].stopped || !attempts[0].monitor then s
    else
      var (s', outcome) := Try(s, attempts[0]);
      if GivesUp(outcome, attempt) || attempts[0].stoppedInPause then s' else Serve(s', attempts[1..], attempt + 1)
  }

  // ---------------------------------------------------------------------
  // Accounting
  // ---------------------------------------------------------------------

  function Packets(wire: seq<Envelope>): (ps: seq<seq<Byte>>)
    ensures |ps| == |wire| && forall i :: 0 <= i < |ps| ==> ps[i] == wire[i].packet
  {
    seq(|wire|, i requires 0 <= i < |wire| => wire[i].packet)
  }

  ghost predicate Numbered(s: Audio) {
    s.seqNo == s.sent == |s.wire| && forall i :: 0 <= i < |s.wire| ==> s.wire[i].seqNo == i
  }

  /** All but the packets still `waiting` in the batch have been sent, dropped or lost, and in order. */
  ghost predicate Accounts(s: Audio, waiting: seq<seq<Byte>>) {
    && Numbered(s)
    && |s.returned| == s.sent + s.dropped + s.lost + |waiting|
    && Subsequence(Packets(s.wire) + waiting, s.returned)
  }

  lemma DropKeeps(s: Audio, n: nat, waiting: seq<seq<Byte>>)
    requires n <= |waiting| && Accounts(s, waiting)
    ensures Accounts(Drop(s, n), waiting[n..])
  {
    hide Subsequence;
    var ps, now := Packets(s.wire), waiting[n..];
    SubsequenceEmpty(waiting[..n]);
    SubsequenceAppend([], waiting[..n], now);
    assert [] + now == now && waiting[..n] + now == waiting;
    SubsequencePrepend(ps, now, waiting);
    SubsequenceTransitive(ps + now, ps + waiting, s.returned);
  }

  lemma PutKeeps(s: Audio, waiting: seq<seq<Byte>>)
    requires waiting != [] && Accounts(s, waiting)
    ensures Accounts(Put(s, waiting[0]), waiting[1..])
  {
    hide Subsequence;
    var s' := Put(s, waiting[0]);
    assert Packets(s'.wire) + waiting[1..] == Packets(s.wire) + waiting;
  }

  lemma ReceiveKeeps(s: Audio, packets: seq<seq<Byte>>)
    requires Accounts(s, [])
    ensures Accounts(Receive(s, packets), packets)
  {
    hide Subsequence;
    assert Packets(s.wire) + [] == Packets(s.wire);
    SubsequenceAppend(Packets(s.wire), s.returned, packets);
  }

  lemma {:induction false} SendAllAccounts(s: Audio, kept: seq<seq<Byte>>, moments: seq<Moment>)
    requires Accounts(s, kept)
    ensures var (s', ok) := SendAll(s, kept, moments);
            Accounts(s', []) && (ok ==> s'.lost == s.lost) && (!ok ==> s'.lost > s.lost)
    decreases |kept|
  {
    hide Accounts, Put, Drop;
    if kept != [] {
      Counters(s, kept[0]);
      if FateOf(moments).Written? {
        PutKeeps(s, kept);
        SendAllAccounts(Put(s, kept[0]), kept[1..], Later(moments));
      } else if FateOf(moments).Broken? {
        LoseKeeps(s, kept);
      } else {
        DropKeeps(s, 1, kept);
        SendAllAccounts(Drop(s, 1), kept[1..], Later(moments));
      }
    }
  }

  /** The write of packet `i` fails; behind that the batch is given up. */
  predicate FailsAt(moments: seq<Moment>, i: nat) {
    i < |moments| && !moments[i].muted && moments[i].handshakeSent && moments[i].answer == WriteFailed
  }

  /** Packet `i` meets an open stream that is not muted, a free lock and a write that goes through. */
  predicate GoesThrough(moments: seq<Moment>, i: nat) {
    i < |moments| && !moments[i].muted && moments[i].handshakeSent && moments[i].answer == Accepted
  }

  lemma FirstFate(moments: seq<Moment>)
    ensures FateOf(moments).Broken? == FailsAt(moments, 0) && FateOf(moments).Written? == GoesThrough(moments, 0)
  {
  }

  /** The packets whose turn comes and whose write succeeds. */
  function Heard(kept: seq<seq<Byte>>, moments: seq<Moment>): seq<seq<Byte>>
    decreases |kept|
  {
    if kept == [] || FailsAt(moments, 0) then []
    else (if GoesThrough(moments, 0) then [kept[0]] else []) + Heard(kept[1..], Later(moments))
  }

  /** A batch puts exactly the packets heard on the wire. */
  lemma {:induction false} SendAllHeard(s: Audio, kept: seq<seq<Byte>>, moments: seq<Moment>)
    ensures Packets(SendAll(s, kept, moments).0.wire) == Packets(s.wire) + Heard(kept, moments)
    decreases |kept|
  {
    FirstFate(moments);
    hide FailsAt, GoesThrough, FateOf;
    if kept == [] || FailsAt(moments, 0) {
      assert Packets(s.wire) + [] == Packets(s.wire);
    } else if GoesThrough(moments, 0) {
      SendAllHeard(Put(s, kept[0]), kept[1..], Later(moments));
      assert Packets(Put(s, kept[0]).wire) == Packets(s.wire) + [kept[0]];
    } else {
      SendAllHeard(Drop(s, 1), kept[1..], Later(moments));
      assert [] + Heard(kept[1..], Later(moments)) == Heard(kept[1..], Later(moments));
    }
  }

  ghost predicate NoneFailsBefore(moments: seq<Moment>, i: nat) {
    forall j: nat :: j < i ==> !FailsAt(moments, j)
  }

  lemma LaterMoments(moments: seq<Moment>, i: nat)
    ensures FailsAt(moments, i + 1) == FailsAt(Later(moments), i) && GoesThrough(moments, i + 1) == GoesThrough(Later(moments), i)
  {
  }

  lemma LaterFailure(moments: seq<Moment>, i: nat)
    requires !FailsAt(moments, 0)
    ensures NoneFailsBefore(moments, i + 1) == NoneFailsBefore(Later(moments), i)
  {
    hide FailsAt, GoesThrough, Later;
    if NoneFailsBefore(Later(moments), i) {
      forall j: nat | j < i + 1 ensures !FailsAt(moments, j) {
        if j > 0 {
          LaterMoments(moments, j - 1);
        }
      }
    }
    if NoneFailsBefore(moments, i + 1) {
      forall j: nat | j < i ensures !FailsAt(Later(moments), j) {
        LaterMoments(moments, j);
      }
    }
  }

  /**
    What packet `i` of a batch adds: it goes on the wire if and only if the stream is open and not muted
    when its turn comes, the lock is free and its write goes through, and no write before it failed.
    If its own write does not fail either, it otherwise counts as dropped.
  */
  lemma {:induction false} PacketExactly(s: Audio, kept: seq<seq<Byte>>, moments: seq<Moment>, i: nat)
    requires i < |kept|
    ensures var (before, ok) := SendAll(s, kept[..i], moments);
            var (after, still) := SendAll(s, kept[..i + 1], moments);
            var sent := NoneFailsBefore(moments, i) && GoesThrough(moments, i);
            && ok == NoneFailsBefore(moments, i) && still == (ok && !FailsAt(moments, i))
            && after.wire == before.wire + (if sent then [Envelope(before.seqNo, kept[i])] else [])
            && after.dropped == before.dropped + (if still && !sent then 1 else 0)
    decreases i
  {
    hide FailsAt, GoesThrough, NoneFailsBefore;
    if i == 0 {
      NoneBeforeFirst(moments);
      FirstPacket(s, kept, moments);
    } else {
      assert kept[..i][1..] == kept[1..][..i - 1] && kept[..i + 1][1..] == kept[1..][..i];
      FirstFate(moments);
      if FailsAt(moments, 0) {
        FailureCuts(moments, i);
      } else {
        LaterMoments(moments, i - 1);
        LaterFailure(moments, i - 1);
        PacketExactly(if GoesThrough(moments, 0) then Put(s, kept[0]) else Drop(s, 1), kept[1..], Later(moments), i - 1);
      }
      hide Put, Drop;
    }
  }

  lemma NoneBeforeFirst(moments: seq<Moment>)
    ensures NoneFailsBefore(moments, 0)
  {
  }

  lemma FailureCuts(moments: seq<Moment>, n: nat)
    requires FailsAt(moments, 0) && n > 0
    ensures !NoneFailsBefore(moments, n)
  {
  }

  lemma FirstPacket(s: Audio, kept: seq<seq<Byte>>, moments: seq<Moment>)
    requires kept != []
    ensures SendAll(s, kept[..0], moments) == (s, true)
    ensures var (after, still) := SendAll(s, kept[..1], moments);
            && still == !FailsAt(moments, 0)
            && after.wire == s.wire + (if GoesThrough(moments, 0) then [Envelope(s.seqNo, kept[0])] else [])
            && after.dropped == s.dropped + (if still && !GoesThrough(moments, 0) then 1 else 0)
  {
    assert kept[..1] == [kept[0]] && |kept[..1][1..]| == 0 && s.wire + [] == s.wire;
    FirstFate(moments);
    hide FailsAt, GoesThrough, FateOf;
  }

  /** Muted, or in front of the handshake line, for all of the batch. */
  predicate AllClosed(moments: seq<Moment>) {
    forall m :: m in moments ==> m.muted || !m.handshakeSent
  }

  predicate QuietTurns(turns: seq<Turn>) {
    forall t :: t in turns && t.Read? ==> AllClosed(t.moments)
  }

  predicate QuietAttempts(attempts: seq<Attempt>) {
    forall a :: a in attempts ==> QuietTurns(a.turns)
  }

  lemma {:induction false} QuietBatch(s: Audio, kept: seq<seq<Byte>>, moments: seq<Moment>)
    requires AllClosed(moments)
    ensures var (s', ok) := SendAll(s, kept, moments);
            ok && s'.wire == s.wire && s'.seqNo == s.seqNo && s'.dropped == s.dropped + |kept|
    decreases |kept|
  {
    if kept != [] {
      assert moments != [] ==> moments[0] in moments && forall m :: m in moments[1..] ==> m in moments;
      QuietBatch(Drop(s, 1), kept[1..], Later(moments));
    }
  }

  lemma {:induction false} QuietPump(s: Audio, rest: seq<Byte>, turns: seq<Turn>)
    requires QuietTurns(turns)
    ensures var (s', outcome) := Pump(s, rest, turns); s'.wire == s.wire && s'.seqNo == s.seqNo && !outcome.SocketClosed?
    decreases |turns|
  {
    hide RtpStream.Frames, SendAll, AllClosed;
    if turns != [] && turns[0].Read? {
      assert turns[0] in turns && forall t :: t in turns[1..] ==> t in turns;
      var f := RtpStream.Frames(rest + turns[0].chunk);
      if !f.bad {
        var stale := StalePacketCount(|f.packets|, MAX_PACKETS_PER_BATCH);
        QuietBatch(Drop(Receive(s, f.packets), stale), f.packets[stale..], turns[0].moments);
        QuietPump(Batch(s, f.packets, turns[0].moments).0, f.rest, turns[1..]);
      }
    }
  }

  /** As long as the stream is muted or not open, over any restarts, nothing goes on the wire and no number is used. */
  lemma {:induction false} QuietServe(s: Audio, attempts: seq<Attempt>, attempt: nat)
    requires QuietAttempts(attempts)
    ensures Serve(s, attempts, attempt).wire == s.wire && Serve(s, attempts, attempt).seqNo == s.seqNo
    decreases |attempts|
  {
    hide Pump, QuietTurns;
    if attempts != [] && !attempts[0].stopped && attempts[0].monitor {
      assert attempts[0] in attempts && forall a :: a in attempts[1..] ==> a in attempts;
      QuietPump(s, [], attempts[0].turns);
      var (s', outcome) := Try(s, attempts[0]);
      if !GivesUp(outcome, attempt) && !attempts[0].stoppedInPause {
        QuietServe(s', attempts[1..], attempt + 1);
      }
    }
  }

  /** Of each batch only the newest eight packets get a chance; the others count as dropped. */
  lemma NewestEight(s: Audio, packets: seq<seq<Byte>>, moments: seq<Moment>)
    ensures var newest := if |packets| <= 8 then packets else packets[|packets| - 8..];
            var (s', ok) := Batch(s, packets, moments);
            && Packets(s'.wire) == Packets(s.wire) + Heard(newest, moments)
            && s'.dropped >= s.dropped + |packets| - |newest| && s'.returned == s.returned + packets
  {
    hide SendAll, Heard;
    var stale := StalePacketCount(|packets|, MAX_PACKETS_PER_BATCH);
    var from := Drop(Receive(s, packets), stale);
    SendAllHeard(from, packets[stale..], moments);
    SendAllCounts(from, packets[stale..], moments);
  }

  lemma {:induction false} SendAllCounts(s: Audio, kept: seq<seq<Byte>>, moments: seq<Moment>)
    ensures SendAll(s, kept, moments).0.dropped >= s.dropped && SendAll(s, kept, moments).0.returned == s.returned
    decreases |kept|
  {
    if kept != [] && !FateOf(moments).Broken? {
      SendAllCounts(if FateOf(moments).Written? then Put(s, kept[0]) else Drop(s, 1), kept[1..], Later(moments));
    }
  }

  lemma Counters(s: Audio, packet: seq<Byte>)
    ensures Put(s, packet).lost == s.lost && forall n: nat :: Drop(s, n).lost == s.lost
  {
  }

  lemma LoseKeeps(s: Audio, kept: seq<seq<Byte>>)
    requires Accounts(s, kept)
    ensures Accounts(Audio(s.seqNo, s.sent, s.dropped, s.wire, s.returned, s.lost + |kept|), [])
  {
    hide Subsequence;
    DropKeeps(s, |kept|, kept);
  }

  lemma BatchAccounts(s: Audio, packets: seq<seq<Byte>>, moments: seq<Moment>)
    requires Accounts(s, [])
    ensures var (s', ok) := Batch(s, packets, moments);
            Accounts(s', []) && (ok ==> s'.lost == s.lost) && (!ok ==> s'.lost > s.lost)
  {
    hide Accounts, SendAll;
    var stale := StalePacketCount(|packets|, MAX_PACKETS_PER_BATCH);
    ReceiveKeeps(s, packets);
    DropKeeps(Receive(s, packets), stale, packets);
    SendAllAccounts(Drop(Receive(s, packets), stale), packets[stale..], moments);
  }

  lemma {:induction false} PumpAccounts(s: Audio, rest: seq<Byte>, turns: seq<Turn>)
    requires Accounts(s, [])
    ensures var (s', outcome) := Pump(s, rest, turns);
            Accounts(s', []) && s'.lost >= s.lost && (s'.lost == s.lost <==> !outcome.SocketClosed?)
    decreases |turns|
  {
    hide Accounts, Batch, RtpStream.Frames;
    if turns != [] && turns[0].Read? {
      var f := RtpStream.Frames(rest + turns[0].chunk);
      if !f.bad {
        BatchAccounts(s, f.packets, turns[0].moments);
        PumpAccounts(Batch(s, f.packets, turns[0].moments).0, f.rest, turns[1..]);
      }
    }
  }

  /** The audio producer ended because the socket failed. */
  predicate Breaks(s: Audio, attempts: seq<Attempt>, attempt: nat)
    decreases |attempts|
  {
    attempts != [] && !attempts[0].stopped && attempts[0].monitor &&
    var (s', outcome) := Try(s, attempts[0]);
    if GivesUp(outcome, attempt) || attempts[0].stoppedInPause then outcome.SocketClosed?
    else Breaks(s', attempts[1..], attempt + 1)
  }

  lemma {:induction false} ServeAccounts(s: Audio, attempts: seq<Attempt>, attempt: nat)
    requires Accounts(s, [])
    ensures var s' := Serve(s, attempts, attempt);
            Accounts(s', []) && s'.lost >= s.lost && (s'.lost == s.lost <==> !Breaks(s, attempts, attempt))
    decreases |attempts|
  {
    hide Accounts, Pump;
    if attempts != [] && !attempts[0].stopped && attempts[0].monitor {
      var (s', outcome) := Try(s, attempts[0]);
      PumpAccounts(s, [], attempts[0].turns);
      if !GivesUp(outcome, attempt) && !attempts[0].stoppedInPause {
        ServeAccounts(s', attempts[1..], attempt + 1);
      }
    }
  }

  /**
    Over all restarts, mute toggles and lock timeouts: envelopes are numbered 0, 1, 2, ..., they carry
    packets of the reader in order, and every packet is sent or dropped exactly when no write failed.
  */
  lemma AudioAccounting(attempts: seq<Attempt>)
    ensures var s := Serve(SILENT, attempts, 1);
            && s.seqNo == s.sent == |s.wire| && (forall i :: 0 <= i < |s.wire| ==> s.wire[i].seqNo == i)
            && Subsequence(Packets(s.wire), s.returned)
            && (|s.returned| == s.sent + s.dropped <==> !Breaks(SILENT, attempts, 1))
  {
    hide Serve, Breaks, Subsequence;
    assert Accounts(SILENT, []) by { SubsequenceOfSelf<seq<Byte>>([]); assert Packets([]) + [] == []; }
    ServeAccounts(SILENT, attempts, 1);
    var s := Serve(SILENT, attempts, 1);
    assert Packets(s.wire) + [] == Packets(s.wire);
  }

  /** No more than three pipelines are started. */
  lemma {:induction false} ThreeAttempts(s: Audio, attempts: seq<Attempt>, attempt: nat)
    requires 1 <= attempt <= 3
    ensures var n := 4 - attempt;
            Serve(s, attempts, attempt) == Serve(s, if |attempts| <= n then attempts else attempts[..n], attempt)
    decreases |attempts|
  {
    hide Try;
    if attempts != [] && !attempts[0].stopped && attempts[0].monitor {
      var (s', outcome) := Try(s, attempts[0]);
      if !GivesUp(outcome, attempt) && !attempts[0].stoppedInPause {
        var n := 3 - attempt;
        ThreeAttempts(s', attempts[1..], attempt + 1);
        if |attempts| > n + 1 {
          assert attempts[..n + 1][1..] == attempts[1..][..n];
        }
      }
    }
  }

  /**
    How a pipeline ends, read off its turns: the reads before turn `k` were all dealt with, and turn `k`,
    if there is one, ended it. A stop signal is not taken for an end of the encoder, nor the other way round.
  */
  lemma {:induction false} PumpEnd(s: Audio, rest: seq<Byte>, turns: seq<Turn>) returns (k: nat)
    ensures k <= |turns| && (forall i :: 0 <= i < k ==> turns[i].Read?)
    ensures var outcome := Pump(s, rest, turns).1;
            && (outcome == Stopped <==> k == |turns| || turns[k].Stop?)
            && (outcome == ProducerEnded <==> k < |turns| && turns[k].PipeEnd?)
            && (outcome == SocketClosed ==> turns[k].Read?)
            && (outcome == Failed ==> turns[k].PipeError? || turns[k].Read?)
    decreases |turns|
  {
    hide RtpStream.Frames, Batch;
    k := 0;
    if turns != [] && turns[0].Read? {
      var f := RtpStream.Frames(rest + turns[0].chunk);
      if !f.bad && Batch(s, f.packets, turns[0].moments).1 {
        k := PumpEnd(Batch(s, f.packets, turns[0].moments).0, f.rest, turns[1..]);
        assert forall i :: 0 < i < k + 1 ==> turns[i] == turns[1..][i - 1];
        k := k + 1;
      }
    }
  }

  /** The chunks read. */
  function Chunks(turns: seq<Turn>): (cs: seq<seq<Byte>>)
    requires forall i :: 0 <= i < |turns| ==> turns[i].Read?
    ensures |cs| == |turns| && forall i :: 0 <= i < |cs| ==> cs[i] == turns[i].chunk
  {
    seq(|turns|, i requires 0 <= i < |turns| => turns[i].chunk)
  }

  /** A pipeline that was stopped or ran out has handed over all packets of what it read, as one stream. */
  lemma {:induction false} PumpReturns(s: Audio, rest: seq<Byte>, turns: seq<Turn>, k: nat)
    requires k <= |turns| && (forall i :: 0 <= i < k ==> turns[i].Read?) && (k < |turns| ==> !turns[k].Read?)
    requires Pump(s, rest, turns).1 == Stopped || Pump(s, rest, turns).1 == ProducerEnded
    ensures Pump(s, rest, turns).0.returned == s.returned + RtpStream.Deliver(rest, Chunks(turns[..k])).packets
    ensures !RtpStream.Deliver(rest, Chunks(turns[..k])).failed
    decreases |turns|
  {
    hide RtpStream.Frames, Batch;
    if k == 0 {
      assert s.returned + [] == s.returned;
    } else {
      var f := RtpStream.Frames(rest + turns[0].chunk);
      var (s', ok) := Batch(s, f.packets, turns[0].moments);
      BatchReturns(s, f.packets, turns[0].moments);
      PumpReturns(s', f.rest, turns[1..], k - 1);
      assert turns[..k][1..] == turns[1..][..k - 1];
      assert Chunks(turns[..k])[1..] == Chunks(turns[1..][..k - 1]);
      var later := RtpStream.Deliver(f.rest, Chunks(turns[1..][..k - 1])).packets;
      assert s.returned + f.packets + later == s.returned + (f.packets + later);
    }
  }

  lemma BatchReturns(s: Audio, packets: seq<seq<Byte>>, moments: seq<Moment>)
    ensures Batch(s, packets, moments).0.returned == s.returned + packets
  {
    hide SendAll;
    var stale := StalePacketCount(|packets|, MAX_PACKETS_PER_BATCH);
    SendAllCounts(Drop(Receive(s, packets), stale), packets[stale..], moments);
  }

  /** Pipelines one after the other, whatever happens. */
  function After(s: Audio, attempts: seq<Attempt>): Audio
    decreases |attempts|
  {
    if attempts == [] then s else After(Try(s, attempts[0]).0, attempts[1..])
  }

  /** How round `i` ends if all rounds before it are gone through. */
  function OutcomeAt(s: Audio, attempts: seq<Attempt>, i: nat): Outcome
    requires i < |attempts|
  {
    Try(After(s, attempts[..i]), attempts[i]).1
  }

  /** The encoder ended or failed, or did not start; the socket is fine and nobody asked to stop. */
  predicate Restarts(outcome: Outcome) {
    outcome == ProducerEnded || outcome == Failed
  }

  /**
    The restart loop goes through the first `m` rounds and no others. It goes on behind a round exactly
    if the encoder ended or failed there, fewer than three were tried, nobody asked to stop and a monitor is found.
  */
  lemma {:induction false} RoundsTried(s: Audio, attempts: seq<Attempt>, attempt: nat) returns (m: nat)
    requires 1 <= attempt <= 3
    ensures m <= |attempts| && m <= 4 - attempt && Serve(s, attempts, attempt) == After(s, attempts[..m])
    ensures forall i :: 0 <= i < m ==> !attempts[i].stopped && attempts[i].monitor
    ensures forall i :: 0 <= i < m - 1 ==> !attempts[i].stoppedInPause && Restarts(OutcomeAt(s, attempts, i))
    ensures m < |attempts| && m < 4 - attempt ==>
              || attempts[m].stopped || !attempts[m].monitor
              || (m > 0 && (attempts[m - 1].stoppedInPause || !Restarts(OutcomeAt(s, attempts, m - 1))))
    decreases |attempts|
  {
    hide Try;
    if attempts == [] || attempts[0].stopped || !attempts[0].monitor {
      m := 0;
    } else {
      var (s', outcome) := Try(s, attempts[0]);
      assert attempts[..0] == [] && attempts[..1][1..] == attempts[..0];
      assert OutcomeAt(s, attempts, 0) == outcome;
      if GivesUp(outcome, attempt) || attempts[0].stoppedInPause {
        m := 1;
      } else {
        var later := RoundsTried(s', attempts[1..], attempt + 1);
        m := later + 1;
        forall i | 0 < i < |attempts|
          ensures attempts[i] == attempts[1..][i - 1] && OutcomeAt(s, attempts, i) == OutcomeAt(s', attempts[1..], i - 1)
        {
          assert attempts[..i][1..] == attempts[1..][..i - 1];
        }
        assert attempts[..m][1..] == attempts[1..][..later];
      }
    }
  }

  // ---------------------------------------------------------------------
  // The producer
  // ---------------------------------------------------------------------

  class AudioProducer {
    var seqNo: nat
    var sent: nat
    var dropped: nat
    var wire: seq<Envelope>
    ghost var returned: seq<seq<Byte>>
    ghost var lost: nat

    ghost function View(): Audio
      reads this
    {
      Audio(seqNo, sent, dropped, wire, returned, lost)
    }

    constructor ()
      ensures View() == SILENT
    {
      seqNo, sent, dropped, wire, returned, lost := 0, 0, 0, [], [], 0;
    }

    method SendBatch(packets: seq<seq<Byte>>, moments: seq<Moment>) returns (ok: bool)
      modifies this
      ensures (View(), ok) == Batch(old(View()), packets, moments)
    {
      returned := returned + packets;
      var stale := StalePacketCount(|packets|, MAX_PACKETS_PER_BATCH);
      dropped := dropped + stale;
      var kept, index, left := packets[stale..], 0, moments;
      assert kept[0..] == kept;
      while index < |kept|
        invariant 0 <= index <= |kept|
        invariant SendAll(View(), kept[index..], left) == Batch(old(View()), packets, moments)
      {
        assert kept[index..][0] == kept[index] && kept[index..][1..] == kept[index + 1..];
        var packet := kept[index];
        index := index + 1;
        if left == [] || left[0].Closed() {
          dropped, left := dropped + 1, Later(left);
          continue;
        }
        match left[0].answer {
          case Accepted =>
            wire := wire + [Envelope(seqNo, packet)];
            seqNo, sent := seqNo + 1, sent + 1;
          case LockBusy => dropped := dropped + 1;
          case WriteFailed =>
            lost := lost + |kept| - index + 1;
            return false;
        }
        left := Later(left);
      }
      return true;
    }

    method PumpAudioStream(turns: seq<Turn>) returns (outcome: Outcome)
      modifies this
      ensures (View(), outcome) == Pump(old(View()), [], turns)
    {
      hide Batch, RtpStream.Frames;
      var reader := new RtpStream.RtpStreamReader();
      assert turns[0..] == turns;
      for index := 0 to |turns|
        invariant fresh(reader)
        invariant Pump(View(), reader.buffer, turns[index..]) == Pump(old(View()), [], turns)
      {
        assert turns[index..][0] == turns[index] && turns[index..][1..] == turns[index + 1..];
        match turns[index] {
          case Stop => return Stopped;
          case PipeEnd => return ProducerEnded;
          case PipeError => return Failed;
          case Read(chunk, moments) =>
            var result := reader.Push(chunk);
            if result.InvalidLength? {
              return Failed;
            }
            var ok := SendBatch(result.packets, moments);
            if !ok {
              return SocketClosed;
            }
        }
      }
      return Stopped;
    }

    method RunAudioStream(attempts: seq<Attempt>)
      modifies this
      ensures View() == Serve(old(View()), attempts, 1)
    {
      hide Pump;
      assert attempts[0..] == attempts;
      for index := 0 to |attempts|
        invariant Serve(View(), attempts[index..], index + 1) == Serve(old(View()), attempts, 1)
      {
        var a := attempts[index];
        assert attempts[index..][0] == a && attempts[index..][1..] == attempts[index + 1..];
        if a.stopped || !a.monitor {
          return;
        }
        var outcome := Failed;
        if a.spawns {
          outcome := PumpAudioStream(a.turns);
        }
        if GivesUp(outcome, index + 1) || a.stoppedInPause {
          return;
        }
      }
    }
  }
}
