/**
 * Segment framing: UInt16LE length, then that many bytes, repeated. It is used
 * by op_get_segment bodies, by op_batch_segments buffers and by inline blobs.
 */
module Framing {
  import opened WireTypes

  const MAX_SEGMENT_SIZE := 65535

  function FrameLength(raw: Bytes): nat
    requires |raw| >= 2
  {
    raw[0] as int + 256 * (raw[1] as int)
  }

  /** Where the frame at the head of `raw` stops; a cut-off frame stops with the buffer. */
  function FrameEnd(raw: Bytes): (end: nat)
    requires |raw| >= 2
    ensures 2 <= end <= |raw|
  {
    Min(2 + FrameLength(raw), |raw|)
  }

  /** The bytes carried by a framed buffer. */
  function Unframe(raw: Bytes): Bytes
    decreases |raw|
  {
    if |raw| < 2 then []
    else raw[2..FrameEnd(raw)] + Unframe(raw[FrameEnd(raw)..])
  }

  function Frame(segment: Bytes): Bytes
    requires |segment| <= MAX_SEGMENT_SIZE
  {
    [|segment| % 256, |segment| / 256] + segment
  }

  function FrameAll(segments: seq<Bytes>): Bytes
    requires forall s | s in segments :: |s| <= MAX_SEGMENT_SIZE
  {
    if segments == [] then [] else Frame(segments[0]) + FrameAll(segments[1..])
  }

  /** A frame followed by anything gives back its segment, then the rest. */
  lemma UnframeFrame(segment: Bytes, rest: Bytes)
    requires |segment| <= MAX_SEGMENT_SIZE
    ensures Unframe(Frame(segment) + rest) == segment + Unframe(rest)
  {
    var raw := Frame(segment) + rest;
    assert raw[0] == |segment| % 256 && raw[1] == |segment| / 256;
    assert FrameEnd(raw) == 2 + |segment|;
    assert raw[2..FrameEnd(raw)] == segment;
    assert raw[FrameEnd(raw)..] == rest;
  }

  /** Framing is lossless for every list of segments, empty ones included. */
  lemma {:induction false} UnframeFrameAll(segments: seq<Bytes>)
    requires forall s | s in segments :: |s| <= MAX_SEGMENT_SIZE
    ensures Unframe(FrameAll(segments)) == Flatten(segments)
  {
    if segments != [] {
      UnframeFrameAll(segments[1..]);
      UnframeFrame(segments[0], FrameAll(segments[1..]));
    }
  }

  /** One turn of the reading loop: the frame at `pos` moves from what is left to what is read. */
  lemma UnframeFrom(read: Bytes, raw: Bytes, pos: nat, end: nat)
    requires pos + 2 <= |raw|
    requires end == Min(pos + 2 + FrameLength(raw[pos..]), |raw|)
    ensures read + raw[pos + 2..end] + Unframe(raw[end..]) == read + Unframe(raw[pos..])
  {
    var here := raw[pos..];
    assert here[2..FrameEnd(here)] == raw[pos + 2..end];
    assert here[FrameEnd(here)..] == raw[end..];
    var u := Unframe(raw[end..]);
    assert read + raw[pos + 2..end] + u == read + (raw[pos + 2..end] + u);
  }

  method ParseSegmentFrames(raw: Bytes) returns (data: Bytes)
    ensures data == Unframe(raw)
  {
    hide Unframe;
    var parts: seq<Bytes> := [];
    var pos := 0;
    ghost var read: Bytes := [];
    assert raw[pos..] == raw && read + Unframe(raw[pos..]) == Unframe(raw);
    while pos + 2 <= |raw|
      invariant 0 <= pos && read == Flatten(parts)
      invariant read + Unframe(raw[Min(pos, |raw|)..]) == Unframe(raw)
      decreases |raw| - pos
    {
      var len := raw[pos] as int + 256 * (raw[pos + 1] as int);
      var end := Min(pos + 2 + len, |raw|);
      UnframeFrom(read, raw, pos, end);
      FlattenPush(parts, raw[pos + 2..end]);
      read := read + raw[pos + 2..end];
      pos := pos + 2;
      parts := parts + [raw[pos..end]];
      pos := pos + len;
    }
    UnframeShort(raw[Min(pos, |raw|)..]);
    assert read == Unframe(raw);
    if |parts| == 1 {
      assert Flatten(parts) == parts[0] + Flatten(parts[1..]);
      data := parts[0];
    } else {
      data := Flatten(parts);
    }
  }

  lemma UnframeShort(raw: Bytes)
    requires |raw| < 2
    ensures Unframe(raw) == []
  {
  }
}
