/**
  `RtpStreamReader` of src/audio.rs: RFC 4571 frames cut out of a pipe, and the
  RTP payload inside each of them.
*/
module RtpStream {
  import opened Common

  const MAX_RTP_FRAME_BYTES: nat := 8 * 1024

  function BigEndian16(hi: Byte, lo: Byte): nat {
    hi * 256 + lo
  }

  /** The payload of an RTP packet, past CSRC list and header extension and before the padding. */
  function RtpPayload(packet: seq<Byte>): Option<seq<Byte>> {
    if |packet| < 12 || packet[0] / 64 != 2 then None
    else
      var csrcCount := packet[0] % 16;
      var hasExtension := packet[0] / 16 % 2 == 1;
      var hasPadding := packet[0] / 32 % 2 == 1;
      var fixed := 12 + csrcCount * 4;
      if hasExtension && |packet| < fixed + 4 then None
      else
        var offset := if hasExtension
                      then fixed + 4 + BigEndian16(packet[fixed + 2], packet[fixed + 3]) * 4
                      else fixed;
        var padding := if hasPadding then packet[|packet| - 1] else 0;
        if padding > |packet| || offset > |packet| - padding then None
        else Some(packet[offset..|packet| - padding])
  }

  /** A frame contributes its payload, unless there is none. */
  function Kept(frame: seq<Byte>): seq<seq<Byte>> {
    match RtpPayload(frame)
    case Some(payload) => if payload != [] then [payload] else []
    case None => []
  }

  /** Packets cut from the front, what stays buffered, and whether an invalid length stopped the cutting. */
  datatype Framing = Framing(packets: seq<seq<Byte>>, rest: seq<Byte>, bad: bool)

  /** What the two length octets say about the front of the buffer. */
  datatype Head = Incomplete | Invalid(length: nat) | Ready(length: nat)

  function HeadOf(buf: seq<Byte>): (head: Head)
    ensures head.Ready? ==> 0 < head.length <= MAX_RTP_FRAME_BYTES && 2 + head.length <= |buf|
  {
    if |buf| < 2 then Incomplete
    else
      var length := BigEndian16(buf[0], buf[1]);
      if length == 0 || length > MAX_RTP_FRAME_BYTES then Invalid(length)
      else if |buf| < 2 + length then Incomplete
      else Ready(length)
  }

  function Frames(buf: seq<Byte>): Framing
    decreases |buf|
  {
    match HeadOf(buf)
    case Incomplete => Framing([], buf, false)
    case Invalid(_) => Framing([], buf, true)
    case Ready(n) =>
      var later := Frames(buf[2 + n..]);
      Framing(Kept(buf[2..2 + n]) + later.packets, later.rest, later.bad)
  }

  // ---------------------------------------------------------------------
  // The reader
  // ---------------------------------------------------------------------

  datatype PushResult = Packets(packets: seq<seq<Byte>>) | InvalidLength(length: nat)

  class RtpStreamReader {
    var buffer: seq<Byte>

    constructor ()
      ensures buffer == []
    {
      buffer := [];
    }

    /** An invalid length discards the packets of this push and leaves the reader at the bad frame. */
    method Push(chunk: seq<Byte>) returns (result: PushResult)
      modifies this
      ensures var f := Frames(old(buffer) + chunk);
              && buffer == f.rest
              && (f.bad ==> HeadOf(f.rest).Invalid? && result == InvalidLength(HeadOf(f.rest).length))
              && (!f.bad ==> result == Packets(f.packets))
    {
      hide Kept, RtpPayload, Frames;
      buffer := buffer + chunk;
      ghost var all := Frames(buffer);
      var packets := [];
      while true
        invariant all.rest == Frames(buffer).rest && all.bad == Frames(buffer).bad
        invariant all.packets == packets + Frames(buffer).packets
        decreases |buffer|
      {
        Unfold(buffer);
        if |buffer| < 2 {
          break;
        }
        var length := BigEndian16(buffer[0], buffer[1]);
        if length == 0 || length > MAX_RTP_FRAME_BYTES {
          return InvalidLength(length);
        }
        if |buffer| < 2 + length {
          break;
        }
        var frame := buffer[2..2 + length];
        buffer := buffer[2 + length..];
        var taken := TakePayload(frame);
        assert packets + (taken + Frames(buffer).packets) == (packets + taken) + Frames(buffer).packets;
        packets := packets + taken;
      }
      return Packets(packets);
    }

    /** Frames without a payload are skipped, not treated as stream errors. */
    static method TakePayload(frame: seq<Byte>) returns (packets: seq<seq<Byte>>)
      ensures packets == Kept(frame)
    {
      var payload := RtpPayload(frame);
      if payload.Some? && payload.value != [] {
        return [payload.value];
      }
      return [];
    }
  }

  // ---------------------------------------------------------------------
  // Chunking
  // ---------------------------------------------------------------------

  /** What a producer's reads deliver up to the first error. */
  datatype Delivery = Delivery(packets: seq<seq<Byte>>, rest: seq<Byte>, failed: bool)

  function Deliver(rest: seq<Byte>, chunks: seq<seq<Byte>>): Delivery
    decreases |chunks|
  {
    if chunks == [] then Delivery([], rest, false)
    else
      var f := Frames(rest + chunks[0]);
      if f.bad then Delivery([], f.rest, true)
      else
        var later := Deliver(f.rest, chunks[1..]);
        Delivery(f.packets + later.packets, later.rest, later.failed)
  }

  /** Once the front of the buffer is decided, later bytes do not change it. */
  lemma HeadStable(buf: seq<Byte>, t: seq<Byte>)
    requires !HeadOf(buf).Incomplete?
    ensures HeadOf(buf + t) == HeadOf(buf)
  {
  }

  lemma {:induction false} FramesResume(buf: seq<Byte>, t: seq<Byte>)
    ensures var early := Frames(buf); var late := Frames(early.rest + t);
            Frames(buf + t) == if early.bad then Framing(early.packets, early.rest + t, true)
                               else Framing(early.packets + late.packets, late.rest, late.bad)
    decreases |buf|
  {
    hide *;
    Unfold(buf);
    if !HeadOf(buf).Incomplete? {
      HeadStable(buf, t);
      Unfold(buf + t);
    }
    if HeadOf(buf).Ready? {
      var n := 2 + HeadOf(buf).length;
      FramesResume(buf[n..], t);
      assert (buf + t)[2..n] == buf[2..n] && (buf + t)[n..] == buf[n..] + t;
    }
  }

  lemma Unfold(buf: seq<Byte>)
    ensures HeadOf(buf).Incomplete? ==> Frames(buf) == Framing([], buf, false)
    ensures HeadOf(buf).Invalid? ==> Frames(buf) == Framing([], buf, true)
    ensures HeadOf(buf).Ready? ==>
              var n := 2 + HeadOf(buf).length; var later := Frames(buf[n..]);
              Frames(buf) == Framing(Kept(buf[2..n]) + later.packets, later.rest, later.bad)
  {
  }

  lemma {:induction false} FramesRest(buf: seq<Byte>)
    ensures !Frames(buf).bad ==> Frames(Frames(buf).rest) == Framing([], Frames(buf).rest, false)
    decreases |buf|
  {
    if HeadOf(buf).Ready? {
      FramesRest(buf[2 + HeadOf(buf).length..]);
    }
  }

  /**
    Whether a stream fails does not depend on the reads; without a bad length
    neither do the packets, and with one every read so far delivered a prefix.
  */
  lemma {:induction false} ChunkInvariance(rest: seq<Byte>, chunks: seq<seq<Byte>>)
    requires Frames(rest) == Framing([], rest, false)
    ensures var whole, run := Frames(rest + Flatten(chunks)), Deliver(rest, chunks);
            && run.failed == whole.bad
            && run.packets <= whole.packets
            && (!whole.bad ==> run.packets == whole.packets && run.rest == whole.rest)
    decreases |chunks|
  {
    hide Frames;
    if chunks == [] {
      assert rest + Flatten(chunks) == rest;
    } else {
      var f, more := Frames(rest + chunks[0]), Flatten(chunks[1..]);
      FramesResume(rest + chunks[0], more);
      assert rest + chunks[0] + more == rest + Flatten(chunks);
      if !f.bad {
        FramesRest(rest + chunks[0]);
        ChunkInvariance(f.rest, chunks[1..]);
      }
    }
  }

  // ---------------------------------------------------------------------
  // Encoder: RFC 3550 sections 5.1 and 5.3.1, RFC 4571 section 2
  // ---------------------------------------------------------------------

  datatype Extension = Extension(profile: seq<Byte>, words: seq<Byte>)

  /**
    `fixed` is the header after its first octet; CSRCs and extension words are four
    octets each; `filler` is the padding before its final count octet.
  */
  datatype Packet = Packet(fixed: seq<Byte>, csrcs: seq<Byte>, extension: Option<Extension>,
                           payload: seq<Byte>, filler: Option<seq<Byte>>) {
    predicate Encodable() {
      && |fixed| == 11
      && |csrcs| % 4 == 0 && |csrcs| / 4 <= 15
      && (extension.Some? ==>
            |extension.value.profile| == 2 && |extension.value.words| % 4 == 0 && |extension.value.words| / 4 < 65536)
      && (filler.Some? ==> |filler.value| < 255)
    }

    function FirstOctet(): (b: Byte)
      requires Encodable()
    {
      128 + (if filler.Some? then 32 else 0) + (if extension.Some? then 16 else 0) + |csrcs| / 4
    }

    function ExtensionBytes(): seq<Byte>
      requires Encodable()
    {
      match extension
      case None => []
      case Some(e) => e.profile + [|e.words| / 4 / 256, |e.words| / 4 % 256] + e.words
    }

    function PaddingBytes(): seq<Byte>
      requires Encodable()
    {
      match filler
      case None => []
      case Some(f) => f + [|f| + 1]
    }

    function Encode(): seq<Byte>
      requires Encodable()
    {
      [FirstOctet()] + fixed + csrcs + ExtensionBytes() + payload + PaddingBytes()
    }
  }

  lemma FlagBits(padding: bool, extension: bool, csrcs: nat)
    requires csrcs <= 15
    ensures var b := 128 + (if padding then 32 else 0) + (if extension then 16 else 0) + csrcs;
            b / 64 == 2 && b % 16 == csrcs && (b / 16 % 2 == 1 <==> extension) && (b / 32 % 2 == 1 <==> padding)
  {
  }

  /** Extraction inverts the encoder, whatever optional parts the packet carries. */
  lemma PayloadRoundTrip(p: Packet)
    requires p.Encodable()
    ensures RtpPayload(p.Encode()) == Some(p.payload)
  {
    var b, ext, pad := p.Encode(), p.ExtensionBytes(), p.PaddingBytes();
    FlagBits(p.filler.Some?, p.extension.Some?, |p.csrcs| / 4);
    Layout(p);
    hide Packet.Encode, Packet.ExtensionBytes, Packet.PaddingBytes, BigEndian16;
  }

  /** Where the parts of an encoded packet are. */
  lemma Layout(p: Packet)
    requires p.Encodable()
    ensures var b, ext, pad, fixed := p.Encode(), p.ExtensionBytes(), p.PaddingBytes(), 12 + |p.csrcs|;
            && |b| == fixed + |ext| + |p.payload| + |pad|
            && b[0] == p.FirstOctet()
            && b[fixed + |ext|..|b| - |pad|] == p.payload
            && (p.extension.Some? ==> |ext| == 4 + |p.extension.value.words|
                                      && BigEndian16(b[fixed + 2], b[fixed + 3]) * 4 == |p.extension.value.words|)
            && (p.extension.None? ==> ext == [])
            && (if p.filler.Some? then b[|b| - 1] == |pad| else pad == [])
  {
    var head := [p.FirstOctet()] + p.fixed + p.csrcs;
    var ext, pad := p.ExtensionBytes(), p.PaddingBytes();
    hide Packet.FirstOctet;
    assert p.Encode() == head + (ext + (p.payload + pad));
  }

  // Where the parts of an accepted packet end.
  function CsrcEnd(b: seq<Byte>): nat
    requires |b| >= 12
  {
    12 + b[0] % 16 * 4
  }

  function ExtensionEnd(b: seq<Byte>): nat
    requires |b| >= 12
  {
    if b[0] / 16 % 2 == 1 && |b| >= CsrcEnd(b) + 4
    then CsrcEnd(b) + 4 + BigEndian16(b[CsrcEnd(b) + 2], b[CsrcEnd(b) + 3]) * 4
    else CsrcEnd(b)
  }

  function PayloadEnd(b: seq<Byte>): int
    requires |b| >= 12
  {
    |b| - if b[0] / 32 % 2 == 1 then b[|b| - 1] else 0
  }

  lemma Bounds(b: seq<Byte>)
    requires RtpPayload(b).Some?
    ensures |b| >= 12 && b[0] / 64 == 2 && CsrcEnd(b) <= ExtensionEnd(b) <= PayloadEnd(b) <= |b|
    ensures b[0] / 16 % 2 == 1 ==> CsrcEnd(b) + 4 <= ExtensionEnd(b)
    ensures RtpPayload(b) == Some(b[ExtensionEnd(b)..PayloadEnd(b)])
  {
  }

  ghost function ParsedExtension(b: seq<Byte>): Option<Extension>
    requires RtpPayload(b).Some?
  {
    Bounds(b);
    var c := CsrcEnd(b);
    if b[0] / 16 % 2 == 1 then Some(Extension(b[c..c + 2], b[c + 4..ExtensionEnd(b)])) else None
  }

  ghost function ParsedFiller(b: seq<Byte>): Option<seq<Byte>>
    requires RtpPayload(b).Some?
    requires b[0] / 32 % 2 == 1 ==> b[|b| - 1] != 0
  {
    Bounds(b);
    if b[0] / 32 % 2 == 1 then Some(b[PayloadEnd(b)..|b| - 1]) else None
  }

  ghost function Parsed(b: seq<Byte>): Packet
    requires RtpPayload(b).Some?
    requires b[0] / 32 % 2 == 1 ==> b[|b| - 1] != 0
  {
    Bounds(b);
    Packet(b[1..12], b[12..CsrcEnd(b)], ParsedExtension(b), b[ExtensionEnd(b)..PayloadEnd(b)], ParsedFiller(b))
  }

  lemma ParsedParts(b: seq<Byte>)
    requires RtpPayload(b).Some?
    requires b[0] / 32 % 2 == 1 ==> b[|b| - 1] != 0
    ensures Parsed(b).Encodable()
    ensures Parsed(b).PaddingBytes() == b[PayloadEnd(b)..]
  {
    Bounds(b);
    hide RtpPayload;
    if b[0] / 16 % 2 == 1 {
      WordsFit(b);
    }
    hide BigEndian16;
  }

  lemma WordsFit(b: seq<Byte>)
    requires |b| >= 12 && b[0] / 16 % 2 == 1 && |b| >= CsrcEnd(b) + 4
    ensures (ExtensionEnd(b) - CsrcEnd(b) - 4) % 4 == 0 && (ExtensionEnd(b) - CsrcEnd(b) - 4) / 4 < 65536
  {
  }

  lemma ParsedFirstOctet(b: seq<Byte>)
    requires RtpPayload(b).Some?
    requires b[0] / 32 % 2 == 1 ==> b[|b| - 1] != 0
    requires Parsed(b).Encodable()
    ensures Parsed(b).FirstOctet() == b[0]
  {
    Bounds(b);
    HeaderOctet(b[0]);
    hide RtpPayload, Packet.Encodable, PayloadEnd, ExtensionEnd;
    assert |Parsed(b).csrcs| / 4 == b[0] % 16;
  }

  lemma HeaderOctet(b: Byte)
    requires b / 64 == 2
    ensures b == 128 + (if b / 32 % 2 == 1 then 32 else 0) + (if b / 16 % 2 == 1 then 16 else 0) + b % 16
  {
  }

  lemma ExtensionHeader(b: seq<Byte>, c: nat, end: nat)
    requires c + 4 <= end <= |b| && end - c - 4 == BigEndian16(b[c + 2], b[c + 3]) * 4
    ensures b[c..end] == b[c..c + 2] + [(end - c - 4) / 4 / 256, (end - c - 4) / 4 % 256] + b[c + 4..end]
  {
    var words := (end - c - 4) / 4;
    assert b[c + 2] == words / 256 && b[c + 3] == words % 256;
  }

  lemma ParsedExtensionBytes(b: seq<Byte>)
    requires RtpPayload(b).Some?
    requires b[0] / 32 % 2 == 1 ==> b[|b| - 1] != 0
    requires Parsed(b).Encodable()
    ensures Parsed(b).ExtensionBytes() == b[CsrcEnd(b)..ExtensionEnd(b)]
  {
    Bounds(b);
    hide RtpPayload, Packet.Encodable, PayloadEnd, BigEndian16;
    if b[0] / 16 % 2 == 1 {
      ExtensionHeader(b, CsrcEnd(b), ExtensionEnd(b));
    }
  }

  /**
    Conversely every packet it accepts is such an encoding, save for one laxity:
    a padding flag with a count of zero, which RFC 3550 does not allow.
  */
  lemma PayloadComplete(b: seq<Byte>) returns (p: Packet)
    requires RtpPayload(b).Some?
    requires b[0] / 32 % 2 == 1 ==> b[|b| - 1] != 0
    ensures p.Encodable() && p.Encode() == b && RtpPayload(b) == Some(p.payload)
  {
    p := Parsed(b);
    Bounds(b);
    ParsedParts(b);
    ParsedFirstOctet(b);
    ParsedExtensionBytes(b);
    hide RtpPayload, Packet.Encodable, Packet.FirstOctet, Packet.ExtensionBytes, Packet.PaddingBytes,
         ParsedExtension, ParsedFiller, CsrcEnd, ExtensionEnd, PayloadEnd;
    Concatenated(b, CsrcEnd(b), ExtensionEnd(b), PayloadEnd(b));
  }

  lemma Concatenated(b: seq<Byte>, fixed: nat, offset: nat, end: nat)
    requires 12 <= fixed <= offset <= end <= |b|
    ensures b == [b[0]] + b[1..12] + b[12..fixed] + b[fixed..offset] + b[offset..end] + b[end..]
  {
  }

  predicate Framable(p: Packet) {
    p.Encodable() && |p.Encode()| <= 8192
  }

  function Framed(p: Packet): seq<Byte>
    requires Framable(p)
  {
    [|p.Encode()| / 256, |p.Encode()| % 256] + p.Encode()
  }

  ghost predicate AllFramable(ps: seq<Packet>) {
    forall i :: 0 <= i < |ps| ==> Framable(ps[i]) && ps[i].payload != []
  }

  ghost function Stream(ps: seq<Packet>): seq<Byte>
    requires AllFramable(ps)
  {
    if ps == [] then [] else Framed(ps[0]) + Stream(ps[1..])
  }

  function Payloads(ps: seq<Packet>): seq<seq<Byte>> {
    if ps == [] then [] else [ps[0].payload] + Payloads(ps[1..])
  }

  lemma {:induction false} FramesOfStream(ps: seq<Packet>)
    requires AllFramable(ps)
    ensures Frames(Stream(ps)) == Framing(Payloads(ps), [], false)
  {
    if ps != [] {
      var p, tail := ps[0], Stream(ps[1..]);
      var b, buf := p.Encode(), Framed(p) + tail;
      assert BigEndian16(buf[0], buf[1]) == |b|;
      assert |b| >= 12;
      assert buf[2..2 + |b|] == b && buf[2 + |b|..] == tail;
      PayloadRoundTrip(p);
      assert Kept(b) == [p.payload];
      FramesOfStream(ps[1..]);
    }
  }

  /** RFC 4571 frames of arbitrary bytes. */
  function FrameAll(frames: seq<seq<Byte>>): seq<Byte>
    requires forall f :: f in frames ==> 1 <= |f| <= 8192
  {
    if frames == [] then []
    else
      assert frames[0] in frames;
      [|frames[0]| / 256, |frames[0]| % 256] + frames[0] + FrameAll(frames[1..])
  }

  /** The payload of a frame, if it has one: too short, another version or nothing inside, and it is passed over. */
  lemma PayloadOrNothing(frame: seq<Byte>)
    ensures |frame| < 12 || frame[0] / 64 != 2 ==> Kept(frame) == []
    ensures forall p: Packet :: p.Encodable() && p.Encode() == frame ==> Kept(frame) == if p.payload == [] then [] else [p.payload]
  {
    forall p: Packet | p.Encodable() && p.Encode() == frame
      ensures Kept(frame) == if p.payload == [] then [] else [p.payload]
    {
      PayloadRoundTrip(p);
    }
  }

  /** Frames of 1 to 8192 bytes are cut as soon as they are there; any other length is invalid. */
  lemma LengthLimits(buf: seq<Byte>)
    requires |buf| >= 2
    ensures var n := buf[0] as int * 256 + buf[1];
            && (HeadOf(buf) == Invalid(n) <==> n == 0 || n > 8192)
            && (HeadOf(buf) == Ready(n) <==> 1 <= n <= 8192 && |buf| >= 2 + n)
            && (HeadOf(buf).Incomplete? <==> 1 <= n <= 8192 && |buf| < 2 + n)
  {
  }

  lemma FrontFrame(frame: seq<Byte>, more: seq<Byte>)
    requires 1 <= |frame| <= 8192
    ensures var s: seq<Byte> := [|frame| / 256, |frame| % 256] + frame + more; var later := Frames(more);
            Frames(s) == Framing(Kept(frame) + later.packets, later.rest, later.bad)
  {
    hide Kept, Frames, HeadOf;
    var n := |frame|;
    var s: seq<Byte> := [n / 256, n % 256] + frame + more;
    assert s[0] as int * 256 + s[1] == n;
    LengthLimits(s);
    assert s[2..2 + n] == frame && s[2 + n..] == more;
    Unfold(s);
  }

  /**
    All frames in front of `tail` count, one after the other, whatever is in them. A tail that holds no whole
    frame stays buffered, and if it starts with an invalid length it ends the stream.
  */
  lemma {:induction false} EveryFrameCounts(frames: seq<seq<Byte>>, tail: seq<Byte>)
    requires (forall f :: f in frames ==> 1 <= |f| <= 8192) && !HeadOf(tail).Ready?
    ensures Frames(FrameAll(frames) + tail) == Framing(Flatten(KeptAll(frames)), tail, HeadOf(tail).Invalid?)
  {
    hide Kept, Frames, HeadOf;
    if frames == [] {
      Unfold(tail);
      assert FrameAll([]) + tail == tail;
    } else {
      assert frames[0] in frames && forall f :: f in frames[1..] ==> f in frames;
      var head: seq<Byte> := [|frames[0]| / 256, |frames[0]| % 256] + frames[0];
      assert FrameAll(frames) + tail == head + (FrameAll(frames[1..]) + tail);
      FrontFrame(frames[0], FrameAll(frames[1..]) + tail);
      EveryFrameCounts(frames[1..], tail);
      assert KeptAll(frames)[0] == Kept(frames[0]) && KeptAll(frames)[1..] == KeptAll(frames[1..]);
    }
  }

  function KeptAll(frames: seq<seq<Byte>>): (ks: seq<seq<seq<Byte>>>)
    ensures |ks| == |frames| && forall i :: 0 <= i < |ks| ==> ks[i] == Kept(frames[i])
  {
    seq(|frames|, i requires 0 <= i < |frames| => Kept(frames[i]))
  }

  /** However the pipe cuts the stream, the reader returns exactly the payloads that were framed. */
  lemma RoundTrip(ps: seq<Packet>, chunks: seq<seq<Byte>>)
    requires AllFramable(ps)
    requires Flatten(chunks) == Stream(ps)
    ensures Deliver([], chunks) == Delivery(Payloads(ps), [], false)
  {
    FramesOfStream(ps);
    ChunkInvariance([], chunks);
    assert [] + Flatten(chunks) == Flatten(chunks);
  }
}
