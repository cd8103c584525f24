/** The length-prefixed envelope of the stream socket and the decoder a client runs over it. */
module Envelopes {
  import opened Common

  datatype Envelope = Envelope(header: seq<Byte>, payload: seq<Byte>)

  const U32: nat := 0x1_0000_0000

  function Low(n: nat): Byte {
    n % 256
  }

  function High(n: nat): nat {
    n / 256
  }

  /** `(n as u32).to_be_bytes()`: the cast drops everything above 32 bits. */
  function BigEndian32(n: nat): (b: seq<Byte>)
    ensures |b| == 4
  {
    [Low(High(High(High(n)))), Low(High(High(n))), Low(High(n)), Low(n)]
  }

  function Parse32(b: seq<Byte>): nat
    requires |b| == 4
  {
    ((b[0] as int * 256 + b[1]) * 256 + b[2]) * 256 + b[3]
  }

  lemma Parse32Inverts(n: nat)
    ensures Parse32(BigEndian32(n)) == n % U32
  {
    var n1, n2, n3 := High(n), High(High(n)), High(High(High(n)));
    Digit(n);
    Digit(n1);
    Digit(n2);
    Digit(n3);
    hide High, Low;
    Remainder(n, High(n3), Parse32(BigEndian32(n)));
  }

  lemma Digit(n: nat)
    ensures n == High(n) * 256 + Low(n)
  {
  }

  lemma Remainder(n: nat, d: nat, r: nat)
    requires n == d * U32 + r && r < U32
    ensures r == n % U32
  {
  }

  function FrameEnvelope(e: Envelope): seq<Byte> {
    BigEndian32(|e.header|) + BigEndian32(|e.payload|) + e.header + e.payload
  }

  /** Four bytes in network order, the most significant first, spell `n`. */
  predicate Spells(b: seq<Byte>, n: int) {
    |b| == 4 && b[0] as int * 16_777_216 + b[1] as int * 65_536 + b[2] as int * 256 + b[3] == n
  }

  lemma LengthDigits(n: nat)
    ensures Spells(BigEndian32(n), n % 4_294_967_296)
  {
    hide BigEndian32;
    Parse32Inverts(n);
  }

  /** An envelope is its header's length, its payload's length, the header and the payload, in this order. */
  lemma EnvelopeLayout(e: Envelope)
    ensures var s, h := FrameEnvelope(e), |e.header|;
            && |s| == 8 + h + |e.payload|
            && Spells(s[0..4], h % 4_294_967_296) && Spells(s[4..8], |e.payload| % 4_294_967_296)
            && s[8..8 + h] == e.header && s[8 + h..] == e.payload
  {
    hide BigEndian32, Spells;
    LengthDigits(|e.header|);
    LengthDigits(|e.payload|);
    Slices(BigEndian32(|e.header|), BigEndian32(|e.payload|), e.header, e.payload);
    var a, b := BigEndian32(|e.header|), BigEndian32(|e.payload|);
    assert (a + b + e.header + e.payload)[0..4] == a;
  }

  predicate Fits(e: Envelope) {
    |e.header| < U32 && |e.payload| < U32
  }

  /** One envelope off the front of the wire, if all of it is there. */
  function Decode(s: seq<Byte>): (r: Option<(Envelope, seq<Byte>)>)
    ensures r.Some? ==> |r.value.1| + 8 <= |s|
  {
    if |s| < 8 then None
    else
      var h, p := Parse32(s[0..4]), Parse32(s[4..8]);
      if |s| < 8 + h + p then None
      else Some((Envelope(s[8..8 + h], s[8 + h..8 + h + p]), s[8 + h + p..]))
  }

  /** The decoder reads back an envelope exactly when both lengths fit their 32-bit fields. */
  lemma EnvelopeRoundTrip(e: Envelope, more: seq<Byte>)
    ensures Decode(FrameEnvelope(e) + more) == Some((e, more)) <==> Fits(e)
  {
    hide FrameEnvelope, BigEndian32, Parse32, Decode, Fits;
    var s := FrameEnvelope(e) + more;
    Prefixes(e, more);
    Parse32Inverts(|e.header|);
    Parse32Inverts(|e.payload|);
    Truncation(e);
    DecodeLengths(s, |e.header| % U32, |e.payload| % U32);
    if Fits(e) {
      Slices(BigEndian32(|e.header|) + BigEndian32(|e.payload|), e.header, e.payload, more);
    }
  }

  lemma Truncation(e: Envelope)
    ensures Fits(e) <==> |e.header| % U32 == |e.header| && |e.payload| % U32 == |e.payload|
    ensures |e.header| % U32 <= |e.header| && |e.payload| % U32 <= |e.payload|
  {
  }

  lemma DecodeLengths(s: seq<Byte>, h: nat, p: nat)
    requires 8 + h + p <= |s| && h == Parse32(s[0..4]) && p == Parse32(s[4..8])
    ensures Decode(s) == Some((Envelope(s[8..8 + h], s[8 + h..8 + h + p]), s[8 + h + p..]))
  {
  }

  lemma Slices<T>(a: seq<T>, b: seq<T>, c: seq<T>, d: seq<T>)
    ensures var s := a + b + c + d; var i, j := |a| + |b|, |a| + |b| + |c|;
            s[|a|..i] == b && s[i..j] == c && s[j..] == d
  {
  }

  lemma Prefixes(e: Envelope, more: seq<Byte>)
    ensures var s := FrameEnvelope(e) + more;
            && |s| == 8 + |e.header| + |e.payload| + |more|
            && s[0..4] == BigEndian32(|e.header|) && s[4..8] == BigEndian32(|e.payload|)
            && s == BigEndian32(|e.header|) + BigEndian32(|e.payload|) + e.header + e.payload + more
  {
    hide BigEndian32;
  }

  /** All whole envelopes, and the bytes left over. */
  function DecodeAll(s: seq<Byte>): (seq<Envelope>, seq<Byte>)
    decreases |s|
  {
    match Decode(s)
    case None => ([], s)
    case Some((e, more)) =>
      var later := DecodeAll(more);
      ([e] + later.0, later.1)
  }

  function Frames(es: seq<Envelope>): seq<Byte> {
    if es == [] then [] else FrameEnvelope(es[0]) + Frames(es[1..])
  }

  lemma {:induction false} FramesAppend(a: seq<Envelope>, b: seq<Envelope>)
    ensures Frames(a + b) == Frames(a) + Frames(b)
  {
    hide FrameEnvelope;
    if a == [] {
      assert a + b == b;
    } else {
      assert (a + b)[1..] == a[1..] + b;
      FramesAppend(a[1..], b);
    }
  }

  lemma FramesOne(e: Envelope)
    ensures Frames([e]) == FrameEnvelope(e)
  {
    hide FrameEnvelope;
    assert Frames([e]) == FrameEnvelope(e) + Frames([]);
  }

  lemma {:induction false} DecodeFrames(es: seq<Envelope>)
    requires forall e :: e in es ==> Fits(e)
    ensures DecodeAll(Frames(es)) == (es, [])
  {
    hide FrameEnvelope, Fits;
    if es == [] {
      assert Frames(es) == [];
      assert DecodeAll([]) == ([], []);
    } else {
      assert es[0] in es;
      EnvelopeRoundTrip(es[0], Frames(es[1..]));
      DecodeFrames(es[1..]);
      assert Frames(es) == FrameEnvelope(es[0]) + Frames(es[1..]);
      assert es == [es[0]] + es[1..];
    }
  }

  lemma Parse32Injective(b: seq<Byte>)
    requires |b| == 4
    ensures BigEndian32(Parse32(b)) == b
  {
    var n := Parse32(b);
    assert High(n) == (b[0] as int * 256 + b[1]) * 256 + b[2];
    assert High(High(n)) == b[0] as int * 256 + b[1];
  }

  lemma DecodeExact(s: seq<Byte>)
    requires Decode(s).Some?
    ensures s == FrameEnvelope(Decode(s).value.0) + Decode(s).value.1
  {
    hide BigEndian32, Parse32, Decode, FrameEnvelope;
    DecodeParts(s);
    var e := Decode(s).value.0;
    Prefixes(e, Decode(s).value.1);
  }

  lemma DecodeParts(s: seq<Byte>)
    requires Decode(s).Some?
    ensures var (e, more) := Decode(s).value;
            && s == BigEndian32(|e.header|) + BigEndian32(|e.payload|) + e.header + e.payload + more
  {
    hide BigEndian32, Parse32;
    var h, p := Parse32(s[0..4]), Parse32(s[4..8]);
    Parse32Injective(s[0..4]);
    Parse32Injective(s[4..8]);
    assert s == s[0..4] + s[4..8] + s[8..8 + h] + s[8 + h..8 + h + p] + s[8 + h + p..];
  }

  /** Whatever the decoder makes of a wire, writing it out again gives that wire. */
  lemma {:induction false} FramesOfDecoded(s: seq<Byte>)
    ensures s == Frames(DecodeAll(s).0) + DecodeAll(s).1
    decreases |s|
  {
    hide FrameEnvelope, Decode;
    if Decode(s).Some? {
      var (e, more) := Decode(s).value;
      DecodeExact(s);
      FramesOfDecoded(more);
      var later := DecodeAll(more);
      FramesAppend([e], later.0);
      FramesOne(e);
      assert s == FrameEnvelope(e) + Frames(later.0) + later.1;
    } else {
      assert Frames([]) + s == s;
    }
  }
}
