/**
 Docker's multiplexed log stream: frames of an eight-byte header, whose last four bytes are a big-endian length, and
 that many bytes of payload. The log route decodes it incrementally as chunks arrive, or in one pass at the end.
 Turning bytes into text is a parameter.
 */
module DockerFrames {
  import opened Wrappers

  const HEADER: nat := 8
  const MAX_PAYLOAD: nat := 0x1_0000_0000

  function ReadUInt32BE(b: Bytes, i: nat): (n: nat)
    requires i + 4 <= |b|
    ensures n < MAX_PAYLOAD
  {
    var b0, b1, b2, b3: int := b[i], b[i + 1], b[i + 2], b[i + 3];
    ((b0 as int * 256 + b1 as int) * 256 + b2 as int) * 256 + b3
  }

  /** A complete frame starts at the front of `b`. */
  predicate HasFrame(b: Bytes) {
    HEADER <= |b| && HEADER + ReadUInt32BE(b, 4) <= |b|
  }

  function FrameSize(b: Bytes): nat
    requires HasFrame(b)
  {
    HEADER + ReadUInt32BE(b, 4)
  }

  datatype Decoded = Decoded(payloads: seq<Bytes>, rest: Bytes)

  /** One pass: the payloads of the complete frames at the front, and the bytes after them. */
  function Decode(b: Bytes): Decoded
    decreases |b|
  {
    if !HasFrame(b) then Decoded([], b)
    else
      var d := Decode(b[FrameSize(b)..]);
      Decoded([b[HEADER..FrameSize(b)]] + d.payloads, d.rest)
  }

  /** Decoding a longer stream continues from where decoding a prefix of it stopped. */
  lemma {:induction false} DecodeContinues(a: Bytes, b: Bytes)
    ensures Decode(a + b).payloads == Decode(a).payloads + Decode(Decode(a).rest + b).payloads
    ensures Decode(a + b).rest == Decode(Decode(a).rest + b).rest
    decreases |a|
  {
    if HasFrame(a) {
      var n := FrameSize(a);
      assert (a + b)[n..] == a[n..] + b && (a + b)[HEADER..n] == a[HEADER..n];
      assert FrameSize(a + b) == n;
      DecodeContinues(a[n..], b);
    }
  }

  function Concat(chunks: seq<Bytes>): Bytes {
    if chunks == [] then [] else Concat(chunks[..|chunks| - 1]) + chunks[|chunks| - 1]
  }

  function Join(parts: seq<string>): string {
    if parts == [] then "" else parts[0] + Join(parts[1..])
  }

  function Texts(payloads: seq<Bytes>, utf8: Bytes -> string): seq<string> {
    seq(|payloads|, i requires 0 <= i < |payloads| => utf8(payloads[i]))
  }

  /** What the incremental decoder has emitted and kept after some chunks, each decoded behind the kept suffix. */
  function Feed(chunks: seq<Bytes>): Decoded {
    if chunks == [] then Decoded([], [])
    else
      var d := Feed(chunks[..|chunks| - 1]);
      var e := Decode(d.rest + chunks[|chunks| - 1]);
      Decoded(d.payloads + e.payloads, e.rest)
  }

  /** However a stream is cut into chunks, the incremental decoder emits what one pass over the whole emits and keeps
      exactly the undecoded suffix. */
  lemma {:induction false} AnyChunkingDecodesTheSame(chunks: seq<Bytes>)
    ensures Feed(chunks) == Decode(Concat(chunks))
  {
    if chunks != [] {
      var n := |chunks| - 1;
      AnyChunkingDecodesTheSame(chunks[..n]);
      DecodeContinues(Concat(chunks[..n]), chunks[n]);
    }
  }

  // ---- Encoding ----

  function WriteUInt32BE(n: nat): Bytes
    requires n < MAX_PAYLOAD
  {
    [n / 0x100_0000, n / 0x1_0000 % 256, n / 0x100 % 256, n % 256]
  }

  /** A frame as the daemon writes it: stream type, three zero bytes, length, payload. */
  function Encode(streamType: Byte, payload: Bytes): Bytes
    requires |payload| < MAX_PAYLOAD
  {
    [streamType, 0, 0, 0] + WriteUInt32BE(|payload|) + payload
  }

  function EncodeAll(streamTypes: seq<Byte>, payloads: seq<Bytes>): Bytes
    requires |streamTypes| == |payloads|
    requires forall p :: p in payloads ==> |p| < MAX_PAYLOAD
  {
    if payloads == [] then []
    else Encode(streamTypes[0], payloads[0]) + EncodeAll(streamTypes[1..], payloads[1..])
  }

  lemma LengthRoundTrips(n: nat)
    requires n < MAX_PAYLOAD
    ensures ReadUInt32BE(WriteUInt32BE(n), 0) == n
  {
    var q1, q2 := n / 0x100, n / 0x1_0000;
    assert n == q1 * 256 + n % 256;
    assert q2 == q1 / 256 && q1 == q2 * 256 + q1 % 256;
    assert n / 0x100_0000 == q2 / 256 && q2 == (q2 / 256) * 256 + q2 % 256;
  }

  lemma EncodedFrameIsAFrame(streamType: Byte, p: Bytes, rest: Bytes)
    requires |p| < MAX_PAYLOAD
    ensures var b := Encode(streamType, p) + rest;
            HasFrame(b) && FrameSize(b) == HEADER + |p| && b[HEADER..HEADER + |p|] == p && b[HEADER + |p|..] == rest
  {
    var b := Encode(streamType, p) + rest;
    LengthRoundTrips(|p|);
    assert b[4] == WriteUInt32BE(|p|)[0] && b[5] == WriteUInt32BE(|p|)[1];
    assert b[6] == WriteUInt32BE(|p|)[2] && b[7] == WriteUInt32BE(|p|)[3];
    assert ReadUInt32BE(b, 4) == ReadUInt32BE(WriteUInt32BE(|p|), 0);
  }

  lemma DecodeEncodedFrame(streamType: Byte, p: Bytes, rest: Bytes)
    requires |p| < MAX_PAYLOAD
    ensures Decode(Encode(streamType, p) + rest) == Decoded([p] + Decode(rest).payloads, Decode(rest).rest)
  {
    EncodedFrameIsAFrame(streamType, p, rest);
  }

  /** Decoding inverts encoding, and leaves alone the incomplete frame that may follow. */
  lemma {:induction false} DecodeInvertsEncode(streamTypes: seq<Byte>, payloads: seq<Bytes>, tail: Bytes)
    requires |streamTypes| == |payloads| && !HasFrame(tail)
    requires forall p :: p in payloads ==> |p| < MAX_PAYLOAD
    ensures Decode(EncodeAll(streamTypes, payloads) + tail) == Decoded(payloads, tail)
    decreases |payloads|
  {
    if payloads == [] {
      assert EncodeAll(streamTypes, payloads) + tail == tail;
    } else {
      var rest := EncodeAll(streamTypes[1..], payloads[1..]) + tail;
      DecodeInvertsEncode(streamTypes[1..], payloads[1..], tail);
      DecodeEncodedFrame(streamTypes[0], payloads[0], rest);
      assert EncodeAll(streamTypes, payloads) + tail == Encode(streamTypes[0], payloads[0]) + rest;
    }
  }

  // ---- The loops ----

  /** A complete frame starts at `offset`. */
  predicate FrameAt(b: Bytes, offset: nat) {
    offset + HEADER <= |b| && offset + HEADER + ReadUInt32BE(b, offset + 4) <= |b|
  }

  /** One turn of either loop, seen from the one-pass decoder. */
  lemma DecodeTurn(b: Bytes, offset: nat)
    requires offset <= |b|
    ensures Decode(b[offset..]) ==
            if FrameAt(b, offset) then
              var next := offset + HEADER + ReadUInt32BE(b, offset + 4);
              Decoded([b[offset + HEADER..next]] + Decode(b[next..]).payloads, Decode(b[next..]).rest)
            else Decoded([], b[offset..])
  {
    var t := b[offset..];
    if offset + HEADER <= |b| {
      assert ReadUInt32BE(t, 4) == ReadUInt32BE(b, offset + 4);
      if FrameAt(b, offset) {
        var next := offset + HEADER + ReadUInt32BE(b, offset + 4);
        assert t[FrameSize(t)..] == b[next..] && t[HEADER..FrameSize(t)] == b[offset + HEADER..next];
      }
    }
  }

  /** After `done` payloads, decoding from `offset` gives what is left of decoding all of `b`. */
  ghost predicate DecodedUpTo(b: Bytes, offset: nat, done: seq<Bytes>) {
    && offset <= |b|
    && done + Decode(b[offset..]).payloads == Decode(b).payloads
    && Decode(b[offset..]).rest == Decode(b).rest
  }

  lemma TurnStep(b: Bytes, offset: nat, done: seq<Bytes>)
    requires DecodedUpTo(b, offset, done)
    ensures if FrameAt(b, offset) then
              var next := offset + HEADER + ReadUInt32BE(b, offset + 4);
              DecodedUpTo(b, next, done + [b[offset + HEADER..next]])
            else Decode(b) == Decoded(done, b[offset..])
  {
    DecodeTurn(b, offset);
    if FrameAt(b, offset) {
      var next := offset + HEADER + ReadUInt32BE(b, offset + 4);
      var p, later := b[offset + HEADER..next], Decode(b[next..]).payloads;
      assert done + [p] + later == done + ([p] + later);
    } else {
      assert done + [] == done;
    }
  }

  lemma TurnStart(b: Bytes)
    ensures DecodedUpTo(b, 0, [])
  {
    assert b[0..] == b && [] + Decode(b).payloads == Decode(b).payloads;
  }

  /** The loop both decoders run: advance by whole frames, stop at the first incomplete one. */
  method TakeFrames(b: Bytes) returns (payloads: seq<Bytes>, offset: nat)
    ensures offset <= |b| && Decode(b) == Decoded(payloads, b[offset..])
  {
    payloads, offset := [], 0;
    TurnStart(b);
    while offset + HEADER <= |b|
      invariant DecodedUpTo(b, offset, payloads)
      decreases |b| - offset
    {
      TurnStep(b, offset, payloads);
      var size := ReadUInt32BE(b, offset + 4);
      if offset + HEADER + size > |b| { return; }
      payloads := payloads + [b[offset + HEADER..offset + HEADER + size]];
      offset := offset + HEADER + size;
    }
    TurnStep(b, offset, payloads);
  }

  /** The Node route keeps the undecoded suffix in `buf`; `emitted` collects the payloads written so far. */
  class LogStream {
    var buf: Bytes
    var emitted: seq<Bytes>
    var closed: bool
    ghost var received: seq<Bytes>

    /** Whatever the chunks received, their concatenation has been decoded as far as one pass would. */
    ghost predicate Valid() reads this {
      Decoded(emitted, buf) == Decode(Concat(received))
    }

    constructor ()
      ensures Valid() && received == [] && !closed
    {
      buf, emitted, closed, received := [], [], false, [];
    }

    /** The `data` handler. */
    method OnData(chunk: Bytes)
      requires Valid()
      modifies this
      ensures Valid() && closed == old(closed)
      ensures received == if closed then old(received) else old(received) + [chunk]
      ensures emitted == if closed then old(emitted) else old(emitted) + Decode(old(buf) + chunk).payloads
      ensures buf == if closed then old(buf) else Decode(old(buf) + chunk).rest
    {
      if closed { return; }
      DecodeContinues(Concat(received), chunk);
      assert (received + [chunk])[..|received|] == received;
      received := received + [chunk];
      buf := buf + chunk;
      var payloads, offset := TakeFrames(buf);
      emitted := emitted + payloads;
      buf := buf[offset..];
    }

    method Close()
      requires Valid()
      modifies this
      ensures Valid() && closed && received == old(received) && emitted == old(emitted)
    {
      closed := true;
    }
  }

  /** stripDockerHeader: the batch decoder, falling back to the raw text when no frame is complete. */
  method StripDockerHeader(chunk: Bytes, utf8: Bytes -> string) returns (text: string)
    ensures text == if Decode(chunk).payloads != [] then Join(Texts(Decode(chunk).payloads, utf8)) else utf8(chunk)
  {
    var payloads, _ := TakeFrames(chunk);
    text := if |payloads| > 0 then Join(Texts(payloads, utf8)) else utf8(chunk);
  }
}
