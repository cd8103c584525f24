/**
  `JpegStreamReader` of src/screen.rs: JPEG frames cut out of a byte pipe, and
  exactly which divisions into reads change what it returns.
*/
module JpegStream {
  import opened Common

  const SOI: Byte := 0xd8
  const EOI: Byte := 0xd9

  predicate MarkerAt(s: seq<Byte>, marker: Byte, i: int) {
    0 <= i && i + 1 < |s| && s[i] == 0xff && s[i + 1] == marker
  }

  /** `find_marker`: the first marker at or after `from`. */
  function Find(s: seq<Byte>, marker: Byte, from: nat): (at: Option<nat>)
    ensures at.Some? ==> from <= at.value && MarkerAt(s, marker, at.value)
    ensures forall i :: from <= i && (at.Some? ==> i < at.value) ==> !MarkerAt(s, marker, i)
    decreases |s| - from
  {
    if from + 1 >= |s| then None
    else if MarkerAt(s, marker, from) then Some(from)
    else Find(s, marker, from + 1)
  }

  lemma FindIs(s: seq<Byte>, marker: Byte, from: nat, at: nat)
    requires from <= at && MarkerAt(s, marker, at)
    requires forall i :: from <= i < at ==> !MarkerAt(s, marker, i)
    ensures Find(s, marker, from) == Some(at)
  {
    var found := Find(s, marker, from);
    assert found.Some? && found.value <= at;
  }

  function Later(at: Option<nat>, d: nat): Option<nat> {
    match at
    case None => None
    case Some(i) => Some(i + d)
  }

  /** Searching a suffix. */
  lemma FindSuffix(s: seq<Byte>, d: nat, marker: Byte, from: nat)
    requires d <= |s|
    ensures Find(s, marker, d + from) == Later(Find(s[d..], marker, from), d)
  {
    var t := s[d..];
    assert forall i :: 0 <= i ==> MarkerAt(t, marker, i) == MarkerAt(s, marker, d + i);
    var at, whole := Find(t, marker, from), Find(s, marker, d + from);
    assert whole.Some? ==> MarkerAt(t, marker, whole.value - d);
    if at.Some? {
      forall i | d + from <= i < d + at.value ensures !MarkerAt(s, marker, i) {
        assert !MarkerAt(t, marker, i - d);
      }
      FindIs(s, marker, d + from, d + at.value);
    }
  }

  /** Nothing before `to`: the search may start there. */
  lemma FindFrom(s: seq<Byte>, marker: Byte, from: nat, to: nat)
    requires from <= to
    requires forall i :: from <= i < to ==> !MarkerAt(s, marker, i)
    ensures Find(s, marker, from) == Find(s, marker, to)
  {
    var at := Find(s, marker, to);
    if at.Some? {
      FindIs(s, marker, from, at.value);
    }
  }

  /** A marker that was found is found again when more bytes follow, or all but the tail of the buffer is. */
  lemma FindStable(s: seq<Byte>, t: seq<Byte>, marker: Byte, from: nat)
    requires Find(s, marker, from).Some?
    ensures Find(s + t, marker, from) == Find(s, marker, from)
    ensures var end := Find(s, marker, from).value + 2; Find(s[..end], marker, from) == Find(s, marker, from)
  {
    var at := Find(s, marker, from).value;
    assert forall i :: 0 <= i <= at ==> MarkerAt(s + t, marker, i) == MarkerAt(s, marker, i);
    FindIs(s + t, marker, from, at);
    var head := s[..at + 2];
    assert forall i :: 0 <= i <= at ==> MarkerAt(head, marker, i) == MarkerAt(s, marker, i);
    FindIs(head, marker, from, at);
  }

  datatype Pieces = Pieces(frames: seq<seq<Byte>>, rest: seq<Byte>)

  /** What the front of a buffer holds: no frame, an open one, or a whole one of `length` bytes. */
  datatype Front = NoFrame | Open(start: nat) | Whole(start: nat, length: nat)

  function FrontOf(buf: seq<Byte>): (front: Front)
    ensures front.Open? ==> front.start + 2 <= |buf|
    ensures front.Whole? ==> front.length >= 4 && front.start + front.length <= |buf|
  {
    match Find(buf, SOI, 0)
    case None => NoFrame
    case Some(start) =>
      match Find(buf[start..], EOI, 2)
      case None => Open(start)
      case Some(end) => Whole(start, end + 2)
  }

  /** All whole frames of `buf` and the bytes that stay buffered. */
  function Cut(buf: seq<Byte>): Pieces
    decreases |buf|
  {
    match FrontOf(buf)
    case NoFrame => Pieces([], [])
    case Open(start) => Pieces([], buf[start..])
    case Whole(start, length) =>
      var later := Cut(buf[start + length..]);
      Pieces([buf[start..start + length]] + later.frames, later.rest)
  }

  lemma FrontNone(buf: seq<Byte>)
    requires Find(buf, SOI, 0).None?
    ensures FrontOf(buf) == NoFrame
  {
  }

  lemma FrontFound(buf: seq<Byte>, start: nat)
    requires Find(buf, SOI, 0) == Some(start)
    ensures start + 2 <= |buf|
    ensures var end := Find(buf[start..], EOI, 2);
            FrontOf(buf) == if end.None? then Open(start) else Whole(start, end.value + 2)
  {
  }

  class JpegStreamReader {
    var buffer: seq<Byte>

    constructor ()
      ensures buffer == []
    {
      buffer := [];
    }

    method Push(chunk: seq<Byte>) returns (frames: seq<seq<Byte>>)
      modifies this
      ensures Pieces(frames, buffer) == Cut(old(buffer) + chunk)
    {
      hide Cut, Find, FrontOf, MarkerAt;
      buffer := buffer + chunk;
      frames := [];
      ghost var all := Cut(buffer);
      while true
        invariant all.rest == Cut(buffer).rest && all.frames == frames + Cut(buffer).frames
        decreases |buffer|
      {
        Unfold(buffer);
        ghost var here := buffer;
        var start := Find(buffer, SOI, 0);
        if start.None? {
          FrontNone(buffer);
          buffer := [];
          break;
        }
        FrontFound(buffer, start.value);
        assert buffer[0..] == buffer;
        if start.value > 0 {
          buffer := buffer[start.value..];
        }
        var end := Find(buffer, EOI, 2);
        if end.None? {
          break;
        }
        var frameEnd := end.value + 2;
        var frame := buffer[..frameEnd];
        buffer := buffer[frameEnd..];
        assert FrontOf(here) == Whole(start.value, frameEnd);
        assert frame == here[start.value..start.value + frameEnd] && buffer == here[start.value + frameEnd..];
        assert frames + ([frame] + Cut(buffer).frames) == frames + [frame] + Cut(buffer).frames;
        frames := frames + [frame];
      }
    }
  }

  lemma Unfold(buf: seq<Byte>)
    ensures FrontOf(buf).NoFrame? ==> Cut(buf) == Pieces([], [])
    ensures FrontOf(buf).Open? ==> Cut(buf) == Pieces([], buf[FrontOf(buf).start..])
    ensures FrontOf(buf).Whole? ==>
              var f := FrontOf(buf); var later := Cut(buf[f.start + f.length..]);
              Cut(buf) == Pieces([buf[f.start..f.start + f.length]] + later.frames, later.rest)
  {
  }

  // ---------------------------------------------------------------------
  // What is returned
  // ---------------------------------------------------------------------

  /** A frame opens with FF D8 and ends at its first FF D9 past that. */
  ghost predicate IsFrame(f: seq<Byte>) {
    |f| >= 4 && MarkerAt(f, SOI, 0) && Find(f, EOI, 2) == Some(|f| - 2)
  }

  /** Nothing buffered, or exactly one frame under way. */
  ghost predicate Settled(rest: seq<Byte>) {
    rest == [] || (MarkerAt(rest, SOI, 0) && Find(rest, EOI, 2) == None)
  }

  lemma SettledFront(rest: seq<Byte>)
    requires Settled(rest)
    ensures Cut(rest) == Pieces([], rest)
  {
    if rest != [] {
      FindIs(rest, SOI, 0, 0);
      assert rest[0..] == rest;
    }
  }

  lemma WholeIsFrame(buf: seq<Byte>)
    requires FrontOf(buf).Whole?
    ensures var f := FrontOf(buf); IsFrame(buf[f.start..f.start + f.length])
  {
    var f := FrontOf(buf);
    var tail := buf[f.start..];
    assert MarkerAt(tail, SOI, 0);
    FindStable(tail, [], EOI, 2);
    assert tail[..f.length] == buf[f.start..f.start + f.length];
  }

  /** `at` tells where in `buf` the frames of `p` lie: disjoint, in order, and before its rest. */
  ghost predicate Slices(buf: seq<Byte>, p: Pieces, at: seq<nat>) {
    && |at| == |p.frames|
    && |p.rest| <= |buf| && p.rest == buf[|buf| - |p.rest|..]
    && forall k :: 0 <= k < |at| ==> SliceAt(buf, p, at, k)
  }

  ghost predicate SliceAt(buf: seq<Byte>, p: Pieces, at: seq<nat>, k: nat)
    requires k < |at| == |p.frames| && |p.rest| <= |buf|
  {
    var end := at[k] + |p.frames[k]|;
    && end <= (if k + 1 < |at| then at[k + 1] else |buf| - |p.rest|)
    && end <= |buf|
    && buf[at[k]..end] == p.frames[k]
  }

  lemma SlicesAfter(buf: seq<Byte>, start: nat, end: nat, tail: Pieces, later: seq<nat>) returns (at: seq<nat>)
    requires start <= end <= |buf| && Slices(buf[end..], tail, later)
    ensures Slices(buf, Pieces([buf[start..end]] + tail.frames, tail.rest), at)
  {
    at := [start] + seq(|later|, k requires 0 <= k < |later| => end + later[k]);
    var p := Pieces([buf[start..end]] + tail.frames, tail.rest);
    forall k | 0 <= k < |at| ensures SliceAt(buf, p, at, k) {
      if k > 0 {
        assert SliceAt(buf[end..], tail, later, k - 1);
        SliceLater(buf, end, tail, later, p, at, k);
      }
    }
    hide SliceAt;
  }

  lemma SliceLater(buf: seq<Byte>, end: nat, tail: Pieces, later: seq<nat>, p: Pieces, at: seq<nat>, k: nat)
    requires end <= |buf| && |tail.rest| <= |buf| - end && |later| == |tail.frames|
    requires 0 < k <= |later| && SliceAt(buf[end..], tail, later, k - 1)
    requires |at| == |later| + 1 == |p.frames| && p.rest == tail.rest && p.frames[k] == tail.frames[k - 1]
    requires at[k] == end + later[k - 1] && (k < |later| ==> at[k + 1] == end + later[k])
    ensures SliceAt(buf, p, at, k)
  {
    var from, n := later[k - 1], |tail.frames[k - 1]|;
    assert buf[end..][from..from + n] == buf[end + from..end + from + n];
  }

  /** Every frame returned is well delimited and is a slice of the input; the rest is its end. */
  lemma {:induction false} CutSlices(buf: seq<Byte>) returns (at: seq<nat>)
    ensures Slices(buf, Cut(buf), at)
    ensures forall k :: 0 <= k < |Cut(buf).frames| ==> IsFrame(Cut(buf).frames[k])
    ensures Settled(Cut(buf).rest)
    decreases |buf|
  {
    hide *;
    Unfold(buf);
    if FrontOf(buf).NoFrame? {
      at := NoSlices(buf, |buf|);
      NothingSettled();
    } else if FrontOf(buf).Open? {
      at := NoSlices(buf, FrontOf(buf).start);
      OpenSettled(buf);
    } else {
      WholeIsFrame(buf);
      var f := FrontOf(buf);
      var end := f.start + f.length;
      var later := CutSlices(buf[end..]);
      at := SlicesAfter(buf, f.start, end, Cut(buf[end..]), later);
    }
  }

  lemma NoSlices(buf: seq<Byte>, from: nat) returns (at: seq<nat>)
    requires from <= |buf|
    ensures Slices(buf, Pieces([], buf[from..]), at)
  {
    at := [];
  }

  lemma NothingSettled()
    ensures Settled([])
  {
  }

  lemma OpenSettled(buf: seq<Byte>)
    requires FrontOf(buf).Open?
    ensures Settled(buf[FrontOf(buf).start..])
  {
    assert MarkerAt(buf[FrontOf(buf).start..], SOI, 0);
  }

  // ---------------------------------------------------------------------
  // Chunk invariance, exactly
  // ---------------------------------------------------------------------

  function Run(rest: seq<Byte>, chunks: seq<seq<Byte>>): Pieces
    decreases |chunks|
  {
    if chunks == [] then Pieces([], rest)
    else
      var p := Cut(rest + chunks[0]);
      var later := Run(p.rest, chunks[1..]);
      Pieces(p.frames + later.frames, later.rest)
  }

  /** A read ends on FF with no frame open and the stream goes on with D8. */
  ghost predicate SplitsOpening(buf: seq<Byte>, next: seq<Byte>) {
    Cut(buf).rest == [] && buf != [] && buf[|buf| - 1] == 0xff && next != [] && next[0] == SOI
  }

  /** No read of the run splits the opening marker of a frame. */
  ghost predicate KeepsOpenings(rest: seq<Byte>, chunks: seq<seq<Byte>>)
    decreases |chunks|
  {
    chunks == [] ||
    (!SplitsOpening(rest + chunks[0], Flatten(chunks[1..])) && KeepsOpenings(Cut(rest + chunks[0]).rest, chunks[1..]))
  }

  /** How many bytes of the stream ended up in frames or in the buffer. */
  function Size(p: Pieces): nat {
    |Flatten(p.frames)| + |p.rest|
  }

  lemma SizeJoin(a: seq<seq<Byte>>, b: Pieces)
    ensures Size(Pieces(a + b.frames, b.rest)) == |Flatten(a)| + Size(b)
  {
    FlattenAppend(a, b.frames);
  }

  /** Bytes before the first FF D8 do not matter. */
  lemma SkipJunk(junk: seq<Byte>, s: seq<Byte>)
    requires forall i :: 0 <= i < |junk| ==> !MarkerAt(junk + s, SOI, i)
    ensures Cut(junk + s) == Cut(s)
  {
    hide *;
    FrontAfterJunk(junk, s);
    Unfold(junk + s);
    Unfold(s);
    var d, f := |junk|, FrontOf(s);
    if !f.NoFrame? {
      assert (junk + s)[d + f.start..] == s[f.start..];
    }
    if f.Whole? {
      assert (junk + s)[d + f.start..d + f.start + f.length] == s[f.start..f.start + f.length];
      assert (junk + s)[d + f.start + f.length..] == s[f.start + f.length..];
    }
  }

  lemma FrontAfterJunk(junk: seq<Byte>, s: seq<Byte>)
    requires forall i :: 0 <= i < |junk| ==> !MarkerAt(junk + s, SOI, i)
    ensures FrontOf(junk + s) == match FrontOf(s)
                                 case NoFrame => NoFrame
                                 case Open(start) => Open(|junk| + start)
                                 case Whole(start, length) => Whole(|junk| + start, length)
  {
    hide Find, MarkerAt;
    FindAfterJunk(junk, s);
    var at := Find(s, SOI, 0);
    if at.Some? {
      assert (junk + s)[|junk| + at.value..] == s[at.value..];
    }
  }

  lemma FindAfterJunk(junk: seq<Byte>, s: seq<Byte>)
    requires forall i :: 0 <= i < |junk| ==> !MarkerAt(junk + s, SOI, i)
    ensures Find(junk + s, SOI, 0) == Later(Find(s, SOI, 0), |junk|)
    ensures Find(s, SOI, 0).Some? ==> Find(s, SOI, 0).value <= |s|
  {
    FindFrom(junk + s, SOI, 0, |junk|);
    assert (junk + s)[|junk|..] == s;
    FindSuffix(junk + s, |junk|, SOI, 0);
  }

  /** No more bytes come out than went in. */
  lemma {:induction false} SizeBound(buf: seq<Byte>)
    ensures Size(Cut(buf)) <= |buf|
    decreases |buf|
  {
    hide Cut, FrontOf;
    Unfold(buf);
    if FrontOf(buf).Whole? {
      var f := FrontOf(buf);
      SizeBound(buf[f.start + f.length..]);
    }
  }

  lemma FrontIs(buf: seq<Byte>, start: nat, at: nat)
    requires MarkerAt(buf, SOI, start) && forall i :: 0 <= i < start ==> !MarkerAt(buf, SOI, i)
    requires start + 2 <= at && MarkerAt(buf, EOI, at) && forall i :: start + 2 <= i < at ==> !MarkerAt(buf, EOI, i)
    ensures FrontOf(buf) == Whole(start, at + 2 - start)
  {
    FindIs(buf, SOI, 0, start);
    FindIs(buf, EOI, start + 2, at);
    FindSuffix(buf, start, EOI, 2);
    hide Find, MarkerAt;
  }

  /** A whole frame at the front adds its length. */
  lemma SizeAfterFrame(buf: seq<Byte>)
    requires FrontOf(buf).Whole?
    ensures var f := FrontOf(buf); Size(Cut(buf)) == f.length + Size(Cut(buf[f.start + f.length..]))
  {
    hide *;
    Unfold(buf);
    var f := FrontOf(buf);
    SizeJoin([buf[f.start..f.start + f.length]], Cut(buf[f.start + f.length..]));
    FlattenOne(buf[f.start..f.start + f.length]);
  }

  /** Losing the first byte of an opening marker always loses bytes. */
  lemma LostOpening(x: seq<Byte>)
    ensures Size(Cut([0xff, SOI] + x)) > Size(Cut(x))
  {
    hide *;
    var s := [0xff, SOI] + x;
    OpenedFront(x);
    if FrontOf(s).Whole? {
      var j := FrontOf(s).length - 4;
      SizeAfterFrame(s);
      BehindOpening(x, j + 2);
      LaterOpening(x, j);
    } else {
      SizeBound(x);
      Unfold(s);
      OpenSize(s);
    }
  }

  lemma BehindOpening(x: seq<Byte>, j: nat)
    requires j <= |x|
    ensures ([0xff, SOI] + x)[j + 2..] == x[j..]
  {
  }

  lemma OpenSize(s: seq<Byte>)
    ensures Size(Pieces([], s)) == |s|
  {
  }

  lemma OpenedFront(x: seq<Byte>)
    ensures var s := [0xff, SOI] + x;
            match FrontOf(s)
            case NoFrame => false
            case Open(start) => start == 0 && s[0..] == s
            case Whole(start, length) =>
              start == 0 && MarkerAt(x, EOI, length - 4) && forall i :: 0 <= i < length - 4 ==> !MarkerAt(x, EOI, i)
  {
    var s := [0xff, SOI] + x;
    assert s[0..] == s && s[2..] == x && MarkerAt(s, SOI, 0);
    FindIs(s, SOI, 0, 0);
    FindSuffix(s, 2, EOI, 0);
  }

  /** A frame that opens late is shorter; one that opens after the first end marker is the next one. */
  lemma LaterOpening(x: seq<Byte>, j: nat)
    requires MarkerAt(x, EOI, j) && forall i :: 0 <= i < j ==> !MarkerAt(x, EOI, i)
    ensures Size(Cut(x)) <= j + 2 + Size(Cut(x[j + 2..]))
  {
    var start := Find(x, SOI, 0);
    if start.Some? && start.value < j {
      FrontIs(x, start.value, j);
      SizeAfterFrame(x);
    } else {
      assert x[..j + 2] + x[j + 2..] == x;
      assert forall i :: 0 <= i < j + 2 ==> !MarkerAt(x, SOI, i) by {
        assert !MarkerAt(x, SOI, j) && !MarkerAt(x, SOI, j + 1);
      }
      SkipJunk(x[..j + 2], x[j + 2..]);
    }
  }

  /** Two reads against one: the same unless the cut splits an opening marker, and then strictly less. */
  lemma {:induction false} CutResumes(buf: seq<Byte>, next: seq<Byte>)
    ensures var early := Cut(buf); var late := Cut(early.rest + next); var both := Pieces(early.frames + late.frames, late.rest);
            && (!SplitsOpening(buf, next) ==> Cut(buf + next) == both)
            && (SplitsOpening(buf, next) ==> Size(both) < Size(Cut(buf + next)))
    decreases |buf|
  {
    hide *;
    Unfold(buf);
    if FrontOf(buf).NoFrame? {
      ResumeNothing(buf, next);
    } else if FrontOf(buf).Open? {
      ResumeOpen(buf, next);
    } else {
      var f := FrontOf(buf);
      var end := f.start + f.length;
      var tail := buf[end..];
      CutResumes(tail, next);
      ResumeWhole(buf, next);
    }
  }

  lemma ResumeNothing(buf: seq<Byte>, next: seq<Byte>)
    requires FrontOf(buf).NoFrame? && Cut(buf) == Pieces([], [])
    ensures !SplitsOpening(buf, next) ==> Cut(buf + next) == Cut(next)
    ensures SplitsOpening(buf, next) ==> Size(Cut(next)) < Size(Cut(buf + next))
    ensures [] + next == next && [] + Cut(next).frames == Cut(next).frames
  {
    hide *;
    Boundary(buf, next);
    if SplitsOpening(buf, next) {
      SplitOpening(buf[..|buf| - 1], next[1..]);
    } else {
      SkipJunk(buf, next);
    }
    assert [] + next == next && [] + Cut(next).frames == Cut(next).frames;
  }

  /** Where a marker can appear when bytes follow a buffer that holds none. */
  lemma Boundary(buf: seq<Byte>, next: seq<Byte>)
    requires FrontOf(buf).NoFrame? && Cut(buf) == Pieces([], [])
    ensures forall i :: 0 <= i < |buf| - 1 ==> !MarkerAt(buf + next, SOI, i)
    ensures !SplitsOpening(buf, next) ==> forall i :: 0 <= i < |buf| ==> !MarkerAt(buf + next, SOI, i)
    ensures SplitsOpening(buf, next) ==> |buf| > 0 && |next| > 0
    ensures SplitsOpening(buf, next) ==> buf[..|buf| - 1] + ([0xff, SOI] + next[1..]) == buf + next
    ensures SplitsOpening(buf, next) ==> [SOI] + next[1..] == next
  {
    hide *;
    InnerMarkers(buf, next);
    OpeningSplit(buf, next);
    if buf != [] {
      LastMarker(buf, next);
    }
  }

  lemma OpeningSplit(buf: seq<Byte>, next: seq<Byte>)
    requires Cut(buf) == Pieces([], [])
    ensures SplitsOpening(buf, next) <==> buf != [] && buf[|buf| - 1] == 0xff && next != [] && next[0] == SOI
    ensures SplitsOpening(buf, next) ==> buf[..|buf| - 1] + ([0xff, SOI] + next[1..]) == buf + next
    ensures SplitsOpening(buf, next) ==> [SOI] + next[1..] == next
  {
    hide Cut;
  }

  lemma InnerMarkers(buf: seq<Byte>, next: seq<Byte>)
    requires FrontOf(buf).NoFrame?
    ensures forall i :: 0 <= i < |buf| - 1 ==> !MarkerAt(buf + next, SOI, i)
  {
    forall i | 0 <= i < |buf| - 1 ensures !MarkerAt(buf + next, SOI, i) {
      assert !MarkerAt(buf, SOI, i);
    }
  }

  lemma LastMarker(buf: seq<Byte>, next: seq<Byte>)
    requires buf != []
    ensures MarkerAt(buf + next, SOI, |buf| - 1) <==> buf[|buf| - 1] == 0xff && next != [] && next[0] == SOI
  {
  }

  lemma SplitOpening(junk: seq<Byte>, x: seq<Byte>)
    requires forall i :: 0 <= i < |junk| ==> !MarkerAt(junk + ([0xff, SOI] + x), SOI, i)
    ensures Size(Cut([SOI] + x)) < Size(Cut(junk + ([0xff, SOI] + x)))
  {
    hide Cut, Size;
    SkipJunk(junk, [0xff, SOI] + x);
    SkipJunk([SOI], x);
    LostOpening(x);
  }

  lemma ResumeOpen(buf: seq<Byte>, next: seq<Byte>)
    requires FrontOf(buf).Open?
    ensures var open := buf[FrontOf(buf).start..];
            && !SplitsOpening(buf, next)
            && Cut(buf + next) == Cut(open + next)
            && [] + Cut(open + next).frames == Cut(open + next).frames
  {
    var start := FrontOf(buf).start;
    Unfold(buf);
    assert buf + next == buf[..start] + (buf[start..] + next);
    assert forall i :: 0 <= i < start ==> MarkerAt(buf + next, SOI, i) == MarkerAt(buf, SOI, i);
    SkipJunk(buf[..start], buf[start..] + next);
  }

  lemma ResumeWhole(buf: seq<Byte>, next: seq<Byte>)
    requires FrontOf(buf).Whole?
    ensures var f := FrontOf(buf); var end := f.start + f.length; var tail := buf[end..];
            var frame, late := buf[f.start..end], Cut(Cut(buf).rest + next);
            && Cut(buf) == Pieces([frame] + Cut(tail).frames, Cut(tail).rest)
            && Cut(buf + next) == Pieces([frame] + Cut(tail + next).frames, Cut(tail + next).rest)
            && Size(Cut(buf + next)) == |frame| + Size(Cut(tail + next))
            && Size(Pieces(Cut(buf).frames + late.frames, late.rest)) == |frame| + Size(Pieces(Cut(tail).frames + late.frames, late.rest))
            && [frame] + (Cut(tail).frames + late.frames) == Cut(buf).frames + late.frames
            && SplitsOpening(buf, next) == SplitsOpening(tail, next)
  {
    hide *;
    var f := FrontOf(buf);
    var end := f.start + f.length;
    var tail, frame := buf[end..], buf[f.start..end];
    FrontStable(buf, next);
    Unfold(buf);
    Unfold(buf + next);
    assert (buf + next)[f.start..end] == frame && (buf + next)[end..] == tail + next;
    var late := Cut(Cut(buf).rest + next);
    FlattenOne(frame);
    SizeJoin([frame], Cut(tail + next));
    SizeJoin([frame], Pieces(Cut(tail).frames + late.frames, late.rest));
    assert [frame] + (Cut(tail).frames + late.frames) == Cut(buf).frames + late.frames;
    SplitsOpeningTail(buf, next);
  }

  lemma SplitsOpeningTail(buf: seq<Byte>, next: seq<Byte>)
    requires FrontOf(buf).Whole?
    ensures var f := FrontOf(buf); SplitsOpening(buf, next) == SplitsOpening(buf[f.start + f.length..], next)
  {
    var f := FrontOf(buf);
    var end := f.start + f.length;
    WholeIsFrame(buf);
    var frame := buf[f.start..end];
    assert buf[end - 1] == frame[|frame| - 1] == EOI;
    Unfold(buf);
    hide Cut, FrontOf, Find, IsFrame;
  }

  lemma FrontStable(buf: seq<Byte>, next: seq<Byte>)
    requires FrontOf(buf).Whole?
    ensures FrontOf(buf + next) == FrontOf(buf)
  {
    var start := FrontOf(buf).start;
    FindStable(buf, next, SOI, 0);
    FindStable(buf[start..], next, EOI, 2);
    hide Find;
    assert (buf + next)[start..] == buf[start..] + next;
  }

  lemma {:induction false} RunSize(rest: seq<Byte>, chunks: seq<seq<Byte>>)
    requires Settled(rest)
    ensures KeepsOpenings(rest, chunks) ==> Run(rest, chunks) == Cut(rest + Flatten(chunks))
    ensures !KeepsOpenings(rest, chunks) ==> Size(Run(rest, chunks)) < Size(Cut(rest + Flatten(chunks)))
    decreases |chunks|
  {
    hide Cut, Size, Settled, SplitsOpening;
    if chunks == [] {
      SettledFront(rest);
      assert rest + Flatten(chunks) == rest;
    } else {
      var buf, more := rest + chunks[0], Flatten(chunks[1..]);
      var p := Cut(buf);
      var at := CutSlices(buf);
      CutResumes(buf, more);
      RunSize(p.rest, chunks[1..]);
      assert buf + more == rest + Flatten(chunks);
      SizeJoin(p.frames, Run(p.rest, chunks[1..]));
      SizeJoin(p.frames, Cut(p.rest + more));
    }
  }

  /** A division into reads gives the result of one big read exactly when no read splits an opening marker. */
  lemma ChunkInvariance(rest: seq<Byte>, chunks: seq<seq<Byte>>)
    requires Settled(rest)
    ensures Run(rest, chunks) == Cut(rest + Flatten(chunks)) <==> KeepsOpenings(rest, chunks)
  {
    hide *;
    RunSize(rest, chunks);
  }

  /** Frames with other bytes in front of each. */
  function Interleaved(gaps: seq<seq<Byte>>, frames: seq<seq<Byte>>): seq<Byte>
    requires |gaps| == |frames|
    decreases |frames|
  {
    if frames == [] then [] else gaps[0] + frames[0] + Interleaved(gaps[1..], frames[1..])
  }

  ghost predicate NoOpening(gap: seq<Byte>) {
    forall i :: 0 <= i < |gap| ==> !MarkerAt(gap, SOI, i)
  }

  lemma GapAndFrame(gap: seq<Byte>, frame: seq<Byte>, more: seq<Byte>)
    requires NoOpening(gap) && IsFrame(frame)
    ensures Cut(gap + frame + more) == Pieces([frame] + Cut(more).frames, Cut(more).rest)
  {
    hide Cut, FrontOf, Find;
    var s := frame + more;
    assert gap + frame + more == gap + s;
    forall i | 0 <= i < |gap| ensures !MarkerAt(gap + s, SOI, i) {
      assert !MarkerAt(gap, SOI, i);
    }
    SkipJunk(gap, s);
    FrameInFront(frame, more);
    Unfold(s);
    assert s[0..|frame|] == frame && s[|frame|..] == more;
  }

  lemma FrameInFront(frame: seq<Byte>, more: seq<Byte>)
    requires IsFrame(frame)
    ensures FrontOf(frame + more) == Whole(0, |frame|)
  {
    FindStable(frame, more, EOI, 2);
    FindIs(frame + more, SOI, 0, 0);
    assert (frame + more)[0..] == frame + more;
  }

  lemma {:induction false} AllFramesCut(gaps: seq<seq<Byte>>, frames: seq<seq<Byte>>)
    requires |gaps| == |frames| && (forall g :: g in gaps ==> NoOpening(g)) && (forall f :: f in frames ==> IsFrame(f))
    ensures Cut(Interleaved(gaps, frames)) == Pieces(frames, [])
    decreases |frames|
  {
    hide Cut, NoOpening, IsFrame;
    if frames == [] {
      NoMarkers([]);
    } else {
      AllFramesCut(gaps[1..], frames[1..]);
      GapAndFrame(gaps[0], frames[0], Interleaved(gaps[1..], frames[1..]));
      assert frames == [frames[0]] + frames[1..];
    }
  }

  /**
    Whatever lies between them, as long as it opens no frame, every frame of a stream is returned, in order,
    and nothing else is, if and only if the pipe splits no opening marker.
  */
  lemma AllFramesReturned(gaps: seq<seq<Byte>>, frames: seq<seq<Byte>>, chunks: seq<seq<Byte>>)
    requires |gaps| == |frames| && (forall g :: g in gaps ==> NoOpening(g)) && (forall f :: f in frames ==> IsFrame(f))
    requires Flatten(chunks) == Interleaved(gaps, frames)
    ensures Run([], chunks) == Pieces(frames, []) <==> KeepsOpenings([], chunks)
  {
    hide *;
    NothingSettled();
    AllFramesCut(gaps, frames);
    ChunkInvariance([], chunks);
    assert [] + Flatten(chunks) == Flatten(chunks);
  }

  /** The smallest frame, read in one piece and cut after its first byte. */
  lemma SplitOpeningLosesFrame()
    ensures Run([], [[0xff, 0xd8, 0xff, 0xd9]]) == Pieces([[0xff, 0xd8, 0xff, 0xd9]], [])
    ensures Run([], [[0xff], [0xd8, 0xff, 0xd9]]) == Pieces([], [])
  {
    hide *;
    var a: seq<Byte>, b: seq<Byte> := [0xff], [0xd8, 0xff, 0xd9];
    SmallestFrame();
    HalvesHoldNothing();
    OneRead([0xff, 0xd8, 0xff, 0xd9]);
    OneRead(b);
    TwoReads(a, b);
  }

  lemma HalvesHoldNothing()
    ensures Cut([0xff]) == Pieces([], []) && Cut([0xd8, 0xff, 0xd9]) == Pieces([], [])
  {
    hide Cut;
    NoMarkers([0xff]);
    NoMarkers([0xd8, 0xff, 0xd9]);
  }

  lemma TwoReads(a: seq<Byte>, b: seq<Byte>)
    ensures Cut(a) == Pieces([], []) ==> Run([], [a, b]) == Run([], [b])
  {
    hide Cut;
    assert [a, b][1..] == [b] && [] + a == a;
  }

  lemma OneRead(s: seq<Byte>)
    ensures Run([], [s]) == Cut(s)
  {
    hide Cut;
    assert [] + s == s && [s][1..] == [];
  }

  lemma SmallestFrame()
    ensures Cut([0xff, 0xd8, 0xff, 0xd9]) == Pieces([[0xff, 0xd8, 0xff, 0xd9]], [])
  {
    var s: seq<Byte> := [0xff, 0xd8, 0xff, 0xd9];
    assert MarkerAt(s, SOI, 0) && MarkerAt(s, EOI, 2);
    FrontIs(s, 0, 2);
    NoMarkers([]);
    Unfold(s);
    hide Cut, FrontOf, Find, MarkerAt;
    assert s[0..4] == s && s[4..] == [];
  }

  lemma NoMarkers(s: seq<Byte>)
    requires forall i :: 0 <= i < |s| ==> !MarkerAt(s, SOI, i)
    ensures Cut(s) == Pieces([], [])
  {
  }
}
