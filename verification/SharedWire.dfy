/**
  Both producers on one socket, from their pumps to the client: the envelopes the video and the
  audio pump get written are told apart by their headers, whatever order the lock let them in.
*/
module SharedWire {
  import opened Common
  import opened Envelopes
  import opened StreamSockets
  import opened StreamSocketRuns
  import Video = H264Pump
  import Audio = AudioPump

  /** The fields of an envelope header that the pumps set; its JSON text is left to a codec. */
  datatype Header = VideoHeader(seqNo: nat, keyFrame: bool, config: bool) | AudioHeader(seqNo: nat)

  /** What a header is written as can be read back. */
  ghost predicate Codec(write: Header -> seq<Byte>, parse: seq<Byte> -> Option<Header>) {
    forall h :: parse(write(h)) == Some(h)
  }

  function VideoEnvelope(write: Header -> seq<Byte>, item: Video.Item): Envelope
    requires item.Video?
  {
    Envelope(write(VideoHeader(item.seqNo, item.keyFrame, item.config)), item.payload)
  }

  function AudioEnvelope(write: Header -> seq<Byte>, e: Audio.Envelope): Envelope {
    Envelope(write(AudioHeader(e.seqNo)), e.packet)
  }

  ghost predicate AllVideo(items: seq<Video.Item>) {
    forall i :: 0 <= i < |items| ==> items[i].Video?
  }

  function VideoEnvelopes(write: Header -> seq<Byte>, items: seq<Video.Item>): (es: seq<Envelope>)
    requires AllVideo(items)
    ensures |es| == |items| && forall i :: 0 <= i < |es| ==> es[i] == VideoEnvelope(write, items[i])
  {
    seq(|items|, i requires 0 <= i < |items| => VideoEnvelope(write, items[i]))
  }

  function AudioEnvelopes(write: Header -> seq<Byte>, wire: seq<Audio.Envelope>): (es: seq<Envelope>)
    ensures |es| == |wire| && forall i :: 0 <= i < |es| ==> es[i] == AudioEnvelope(write, wire[i])
  {
    seq(|wire|, i requires 0 <= i < |wire| => AudioEnvelope(write, wire[i]))
  }

  /** The video envelopes among those a client reads. */
  function VideoOf(parse: seq<Byte> -> Option<Header>, es: seq<Envelope>): seq<Video.Item> {
    if es == [] then []
    else
      var n := |es| - 1;
      VideoOf(parse, es[..n]) +
      match parse(es[n].header)
      case Some(VideoHeader(seqNo, keyFrame, config)) => [Video.Video(seqNo, keyFrame, config, es[n].payload)]
      case _ => []
  }

  function AudioOf(parse: seq<Byte> -> Option<Header>, es: seq<Envelope>): seq<Audio.Envelope> {
    if es == [] then []
    else
      var n := |es| - 1;
      AudioOf(parse, es[..n]) +
      match parse(es[n].header)
      case Some(AudioHeader(seqNo)) => [Audio.Envelope(seqNo, es[n].payload)]
      case _ => []
  }

  lemma LastOfWire(parse: seq<Byte> -> Option<Header>, es: seq<Envelope>)
    requires es != []
    ensures var front, last := es[..|es| - 1], es[|es| - 1];
            match parse(last.header)
            case Some(VideoHeader(n, k, c)) =>
              && VideoOf(parse, es) == VideoOf(parse, front) + [Video.Video(n, k, c, last.payload)]
              && AudioOf(parse, es) == AudioOf(parse, front)
            case Some(AudioHeader(n)) =>
              && AudioOf(parse, es) == AudioOf(parse, front) + [Audio.Envelope(n, last.payload)]
              && VideoOf(parse, es) == VideoOf(parse, front)
            case None => VideoOf(parse, es) == VideoOf(parse, front) && AudioOf(parse, es) == AudioOf(parse, front)
  {
  }

  /** The last envelope of a merge is the last one of either sequence. */
  lemma LastOfMerge(write: Header -> seq<Byte>, es: seq<Envelope>, video: seq<Video.Item>, audio: seq<Audio.Envelope>)
    requires es != [] && AllVideo(video)
    requires Interleaves(es, VideoEnvelopes(write, video), AudioEnvelopes(write, audio))
    ensures var n, last := |es| - 1, es[|es| - 1];
            || (video != [] && last == VideoEnvelope(write, video[|video| - 1]) &&
                Interleaves(es[..n], VideoEnvelopes(write, video[..|video| - 1]), AudioEnvelopes(write, audio)))
            || (audio != [] && last == AudioEnvelope(write, audio[|audio| - 1]) &&
                Interleaves(es[..n], VideoEnvelopes(write, video), AudioEnvelopes(write, audio[..|audio| - 1])))
  {
    hide VideoEnvelope, AudioEnvelope, Interleaves;
    InterleavesLast(es, VideoEnvelopes(write, video), AudioEnvelopes(write, audio));
    var a, b := VideoEnvelopes(write, video), AudioEnvelopes(write, audio);
    if video != [] {
      assert a[..|a| - 1] == VideoEnvelopes(write, video[..|video| - 1]);
    }
    if audio != [] {
      assert b[..|b| - 1] == AudioEnvelopes(write, audio[..|audio| - 1]);
    }
  }

  lemma NothingMerged(write: Header -> seq<Byte>, parse: seq<Byte> -> Option<Header>,
                      video: seq<Video.Item>, audio: seq<Audio.Envelope>)
    requires AllVideo(video) && Interleaves([], VideoEnvelopes(write, video), AudioEnvelopes(write, audio))
    ensures VideoOf(parse, []) == video && AudioOf(parse, []) == audio
  {
  }

  lemma Parsed(write: Header -> seq<Byte>, parse: seq<Byte> -> Option<Header>, h: Header)
    requires Codec(write, parse)
    ensures parse(write(h)) == Some(h)
  {
  }

  /** However the two sequences are merged, their headers tell them apart again. */
  lemma {:induction false} Demultiplexed(write: Header -> seq<Byte>, parse: seq<Byte> -> Option<Header>,
                                         es: seq<Envelope>, video: seq<Video.Item>, audio: seq<Audio.Envelope>)
    requires Codec(write, parse) && AllVideo(video)
    requires Interleaves(es, VideoEnvelopes(write, video), AudioEnvelopes(write, audio))
    ensures VideoOf(parse, es) == video && AudioOf(parse, es) == audio
    decreases |es|
  {
    hide VideoOf, AudioOf, Interleaves, Codec;
    if es == [] {
      NothingMerged(write, parse, video, audio);
    } else {
      LastOfMerge(write, es, video, audio);
      LastOfWire(parse, es);
      var n, last := |es| - 1, es[|es| - 1];
      if video != [] && last == VideoEnvelope(write, video[|video| - 1]) &&
         Interleaves(es[..n], VideoEnvelopes(write, video[..|video| - 1]), AudioEnvelopes(write, audio)) {
        var front, item := video[..|video| - 1], video[|video| - 1];
        Parsed(write, parse, VideoHeader(item.seqNo, item.keyFrame, item.config));
        Demultiplexed(write, parse, es[..n], front, audio);
        assert video == front + [item];
      } else {
        var front, e := audio[..|audio| - 1], audio[|audio| - 1];
        Parsed(write, parse, AudioHeader(e.seqNo));
        Demultiplexed(write, parse, es[..n], video, front);
        assert audio == front + [e];
      }
    }
  }

  lemma DueIsVideo(pipelines: seq<seq<Video.Turn>>)
    ensures AllVideo(Video.Due(pipelines, 0))
  {
    hide Video.Due;
    Video.DueNumbered(pipelines, 0);
  }

  /** The first `k` of the envelopes due over all pipelines, as they go on the wire. */
  ghost function WrittenVideo(write: Header -> seq<Byte>, pipelines: seq<seq<Video.Turn>>, k: nat): seq<Envelope>
    requires k <= |Video.Due(pipelines, 0)|
  {
    DueIsVideo(pipelines);
    VideoEnvelopes(write, Video.Due(pipelines, 0)[..k])
  }

  /**
    The whole way. Task 0 runs the video pumps and has written the first `k` envelopes due, task 1 runs
    the audio producer and has written its wire; no write has failed. Then the client reads one
    handshake line, the units forwarded so far, each with its own parameter sets, and the audio
    packets sent, numbered from zero and in the reader's order.
  */
  lemma ClientReceivesBoth(run: seq<Action>, pipelines: seq<seq<Video.Turn>>, k: nat, attempts: seq<Audio.Attempt>,
                           write: Header -> seq<Byte>, parse: seq<Byte> -> Option<Header>)
    requires Codec(write, parse)
    requires Legal(INITIAL, run) && (forall a :: a in run ==> a.t <= 1 && !a.Fail?)
    requires var s := End(INITIAL, run); s.magicSent && s.holder.None? && AllFit(s.log)
    requires k <= |Video.Due(pipelines, 0)| && By(End(INITIAL, run).log, 0) == WrittenVideo(write, pipelines, k)
    requires By(End(INITIAL, run).log, 1) == AudioEnvelopes(write, Audio.Serve(Audio.SILENT, attempts, 1).wire)
    ensures var (line, es, rest) := Client(End(INITIAL, run).wire);
            && line in {Some(MAGIC_V1), Some(MAGIC_V2)} && rest == []
            && Video.Reassemble(VideoOf(parse, es)) <= Video.Forwarded(pipelines)
            && (k == |Video.Due(pipelines, 0)| ==> Video.Reassemble(VideoOf(parse, es)) == Video.Forwarded(pipelines))
            && AudioOf(parse, es) == Audio.Serve(Audio.SILENT, attempts, 1).wire
            && (forall i :: 0 <= i < |AudioOf(parse, es)| ==> AudioOf(parse, es)[i].seqNo == i)
            && Subsequence(Audio.Packets(AudioOf(parse, es)), Audio.Serve(Audio.SILENT, attempts, 1).returned)
  {
    hide *;
    WireOfTwo(run);
    var wire := Audio.Serve(Audio.SILENT, attempts, 1).wire;
    VideoWritten(write, pipelines, k);
    Demultiplexed(write, parse, Client(End(INITIAL, run).wire).1, Video.Due(pipelines, 0)[..k], wire);
    Audio.AudioAccounting(attempts);
  }

  /** The video pumps' part: what the first `k` envelopes reassemble to. */
  lemma VideoWritten(write: Header -> seq<Byte>, pipelines: seq<seq<Video.Turn>>, k: nat)
    requires k <= |Video.Due(pipelines, 0)|
    ensures var due := Video.Due(pipelines, 0);
            && AllVideo(due[..k]) && WrittenVideo(write, pipelines, k) == VideoEnvelopes(write, due[..k])
            && Video.Reassemble(due[..k]) <= Video.Forwarded(pipelines)
            && (k == |due| ==> Video.Reassemble(due[..k]) == Video.Forwarded(pipelines))
  {
    hide Video.Due, Video.Reassemble, Video.Forwarded, VideoEnvelopes;
    DueIsVideo(pipelines);
    Video.DueIsEnvelopes(pipelines, 0);
    Video.ReassemblePrefix(Video.Forwarded(pipelines), 0, k);
    Video.DueForwards(pipelines, 0);
    hide Video.EnvelopesOf;
    var due := Video.Due(pipelines, 0);
    assert due[..|due|] == due;
  }

  /** The socket's part: without failed writes the client reads a merge of what the two tasks wrote. */
  lemma WireOfTwo(run: seq<Action>)
    requires Legal(INITIAL, run) && (forall a :: a in run ==> a.t <= 1 && !a.Fail?)
    requires var s := End(INITIAL, run); s.magicSent && s.holder.None? && AllFit(s.log)
    ensures var (line, es, rest) := Client(End(INITIAL, run).wire);
            && line in {Some(MAGIC_V1), Some(MAGIC_V2)} && rest == []
            && Interleaves(es, By(End(INITIAL, run).log, 0), By(End(INITIAL, run).log, 1))
  {
    hide Step, CanStep, Meant, By, Interleaves, Client, Logged, AllFit;
    WireExactly(run);
    NoFailuresNoTear(run);
    OnlyTheseTasks(INITIAL, run);
    LogInterleaves(End(INITIAL, run).log);
    InitialInv();
    RunInv(INITIAL, run);
  }
}
