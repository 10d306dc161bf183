/** Wire frames: a CRC-8 trailer under COBS, and the resynchronising parser (src/wire_frame.c).
    `crc` stands for crc8_ccitt and may be any function. */
module WireFrame {
  import opened Common
  import opened Segments
  import Cobs

  type Crc = seq<Byte> -> Byte
  type Payload = seq<Byte>

  const MAX_PAYLOAD := 128
  const MAX_ENCODED := Cobs.MaxEncoded(MAX_PAYLOAD + 1)

  // ---- reference behaviour ----

  /** What a decoded frame delivers: its payload when the trailer is the payload's CRC. */
  function Checked(crc: Crc, plain: seq<Byte>): seq<Payload> {
    if |plain| < 1 then []
    else
      var payload := plain[..|plain| - 1];
      if plain[|plain| - 1] == crc(payload) then [payload] else []
  }

  /** What the bytes between two delimiters deliver. */
  function Accept(crc: Crc, segment: seq<Byte>): seq<Payload> {
    if segment == [] || |segment| > MAX_ENCODED then []
    else
      var plain := Cobs.Decode(segment);
      if plain.None? then [] else Checked(crc, plain.value)
  }

  function Acceptor(crc: Crc): seq<Byte> -> seq<Payload> { segment => Accept(crc, segment) }

  function Frame(crc: Crc, payload: Payload): seq<Byte> {
    Cobs.Encode(payload + [crc(payload)])
  }

  type Framer = Payload -> seq<Byte>

  function FramerOf(crc: Crc): Framer { payload => Frame(crc, payload) }

  function Frames(frame: Framer, payloads: seq<Payload>): seq<Byte> {
    if payloads == [] then [] else Frames(frame, payloads[..|payloads| - 1]) + frame(payloads[|payloads| - 1])
  }

  // ---- laws ----

  lemma {:induction false} AcceptFrame(crc: Crc, payload: Payload)
    requires |payload| <= MAX_PAYLOAD
    ensures Accept(crc, Cobs.EncodeBody(payload + [crc(payload)])) == [payload]
  {
    var plain := payload + [crc(payload)];
    Cobs.RoundTrip(plain);
    Cobs.EncodedNonZero(plain);
    Cobs.EncodedFits(plain);
    assert plain[..|plain| - 1] == payload;
  }

  /** A whole frame arriving between frames delivers its payload and leaves nothing behind. */
  lemma {:induction false} DeliverFrame(crc: Crc, payload: Payload)
    requires |payload| <= MAX_PAYLOAD
    ensures Deliver(Acceptor(crc), Frame(crc, payload)) == [payload]
    ensures Tail(Frame(crc, payload)) == []
  {
    var body := Cobs.EncodeBody(payload + [crc(payload)]);
    Cobs.EncodedNonZero(payload + [crc(payload)]);
    DeliverSegment(Acceptor(crc), body, []);
    AcceptFrame(crc, payload);
    assert Frame(crc, payload) == body + [0] + [];
  }

  ghost predicate Sendable(payloads: seq<Payload>) {
    forall i :: 0 <= i < |payloads| ==> |payloads[i]| <= MAX_PAYLOAD
  }

  /** `frame(p)`, arriving between frames, delivers `p` and leaves nothing behind. */
  ghost predicate Whole(accept: seq<Byte> -> seq<Payload>, frame: Framer, p: Payload) {
    Deliver(accept, frame(p)) == [p] && Tail(frame(p)) == []
  }

  lemma {:induction false} DeliverNext(accept: seq<Byte> -> seq<Payload>, frame: Framer, stream: seq<Byte>, p: Payload)
    requires Tail(stream) == [] && Whole(accept, frame, p)
    ensures Deliver(accept, stream + frame(p)) == Deliver(accept, stream) + [p]
    ensures Tail(stream + frame(p)) == []
  {
    DeliverAppend(accept, stream, frame(p));
    assert [] + frame(p) == frame(p);
  }

  lemma {:induction false} DeliverAll(accept: seq<Byte> -> seq<Payload>, frame: Framer, before: seq<Byte>,
                                      payloads: seq<Payload>)
    requires Tail(before) == []
    requires forall i :: 0 <= i < |payloads| ==> Whole(accept, frame, payloads[i])
    ensures Deliver(accept, before + Frames(frame, payloads)) == Deliver(accept, before) + payloads
    ensures Tail(before + Frames(frame, payloads)) == []
    decreases |payloads|
  {
    if payloads == [] {
      assert before + [] == before;
    } else {
      var init, last := payloads[..|payloads| - 1], payloads[|payloads| - 1];
      DeliverAll(accept, frame, before, init);
      DeliverNext(accept, frame, before + Frames(frame, init), last);
      Regroup(before, Frames(frame, init), frame(last));
      Regroup(Deliver(accept, before), init, [last]);
      assert payloads == init + [last];
    }
  }

  /** After any bytes that end on a delimiter, every following frame is delivered, in order. */
  lemma {:induction false} Resynchronises(crc: Crc, before: seq<Byte>, payloads: seq<Payload>)
    requires (before == [] || before[|before| - 1] == 0) && Sendable(payloads)
    ensures Deliver(Acceptor(crc), before + Frames(FramerOf(crc), payloads))
            == Deliver(Acceptor(crc), before) + payloads
    ensures Tail(before + Frames(FramerOf(crc), payloads)) == []
  {
    forall i | 0 <= i < |payloads|
      ensures Whole(Acceptor(crc), FramerOf(crc), payloads[i])
    {
      DeliverFrame(crc, payloads[i]);
    }
    DeliverAll(Acceptor(crc), FramerOf(crc), before, payloads);
  }

  // ---- only checked payloads ----

  /** `segment` is what an encoder makes of `p` and its CRC, or any other bytes that decode to them. */
  predicate Genuine(crc: Crc, segment: seq<Byte>, p: Payload) {
    0 < |segment| <= MAX_ENCODED && Cobs.Decode(segment) == Some(p + [crc(p)])
  }

  /** A segment is accepted exactly when it decodes to a payload and that payload's CRC. */
  lemma {:induction false} AcceptIff(crc: Crc, segment: seq<Byte>, p: Payload)
    ensures p in Accept(crc, segment) <==> Genuine(crc, segment, p)
    ensures |Accept(crc, segment)| <= 1
  {
    var plain := Cobs.Decode(segment);
    if Genuine(crc, segment, p) {
      assert (p + [crc(p)])[..|p|] == p;
    } else if plain.Some? && plain.value != [] {
      assert plain.value == plain.value[..|plain.value| - 1] + [plain.value[|plain.value| - 1]];
    }
  }

  /** `stream[i..j]` is a segment: it starts at a delimiter and the zero at `j` closes it. */
  ghost predicate ClosedAt(stream: seq<Byte>, i: nat, j: nat) {
    && i <= j < |stream| && stream[j] == 0 && Cobs.NonZero(stream[i..j])
    && (i == 0 || stream[i - 1] == 0)
  }

  ghost predicate HasGenuine(crc: Crc, stream: seq<Byte>, p: Payload) {
    exists i: nat, j: nat :: ClosedAt(stream, i, j) && Genuine(crc, stream[i..j], p)
  }

  lemma {:induction false} TailStarts(stream: seq<Byte>) returns (start: nat)
    ensures start <= |stream| && Tail(stream) == stream[start..] && (start > 0 ==> stream[start - 1] == 0)
  {
    start := |stream|;
    if stream != [] && stream[|stream| - 1] != 0 {
      var init := stream[..|stream| - 1];
      start := TailStarts(init);
      assert init[start..] + [stream[|stream| - 1]] == stream[start..];
    }
  }

  /** The last segment closed is the tail before its zero. */
  lemma {:induction false} LastClosed(init: seq<Byte>, i: nat)
    ensures ClosedAt(init + [0], i, |init|) <==> i <= |init| && i == |init| - |Tail(init)|
  {
    var start := TailStarts(init);
    assert (init + [0])[start..|init|] == Tail(init);
    if ClosedAt(init + [0], i, |init|) { ClosedFrom(init, i, start); }
  }

  lemma {:induction false} ClosedFrom(init: seq<Byte>, i: nat, start: nat)
    requires i <= |init| && start <= |init| && Cobs.NonZero(init[i..]) && Cobs.NonZero(init[start..])
    requires (i == 0 || init[i - 1] == 0) && (start == 0 || init[start - 1] == 0)
    ensures i == start
  {
    NoZeroWithin(init, i, start);
    NoZeroWithin(init, start, i);
  }

  lemma {:induction false} NoZeroWithin(s: seq<Byte>, i: nat, k: nat)
    requires i <= |s| && k <= |s| && Cobs.NonZero(s[i..])
    ensures i < k ==> s[k - 1] != 0
  {
    if i < k { assert s[i..][k - 1 - i] == s[k - 1]; }
  }

  lemma {:induction false} EarlierClosed(init: seq<Byte>, byte: Byte, i: nat, j: nat)
    requires j < |init|
    ensures ClosedAt(init + [byte], i, j) <==> ClosedAt(init, i, j)
    ensures i <= j ==> (init + [byte])[i..j] == init[i..j]
  {
    if i <= j { assert (init + [byte])[i..j] == init[i..j]; }
  }

  lemma {:induction false} GenuineMore(crc: Crc, init: seq<Byte>, byte: Byte, p: Payload)
    ensures HasGenuine(crc, init + [byte], p)
       <==> HasGenuine(crc, init, p) || (byte == 0 && Genuine(crc, Tail(init), p))
  {
    var stream := init + [byte];
    var start := TailStarts(init);
    if HasGenuine(crc, init, p) {
      var i: nat, j: nat :| ClosedAt(init, i, j) && Genuine(crc, init[i..j], p);
      EarlierClosed(init, byte, i, j);
    }
    if byte == 0 && Genuine(crc, Tail(init), p) {
      LastClosed(init, start);
      assert stream[start..|init|] == Tail(init);
    }
    if HasGenuine(crc, stream, p) {
      var i: nat, j: nat :| ClosedAt(stream, i, j) && Genuine(crc, stream[i..j], p);
      if j < |init| {
        EarlierClosed(init, byte, i, j);
      } else {
        LastClosed(init, i);
        assert stream[i..j] == Tail(init);
      }
    }
  }

  /** Damage delivers nothing: over every stream, a payload is delivered exactly when some segment of it
      decodes to that payload followed by its own CRC. */
  lemma {:induction false} DeliveredIff(crc: Crc, stream: seq<Byte>, p: Payload)
    ensures p in Deliver(Acceptor(crc), stream) <==> HasGenuine(crc, stream, p)
  {
    if stream != [] {
      var init, last := stream[..|stream| - 1], stream[|stream| - 1];
      DeliveredIff(crc, init, p);
      DeliverByte(Acceptor(crc), init, last);
      GenuineMore(crc, init, last, p);
      AcceptIff(crc, Tail(init), p);
      assert stream == init + [last] && Acceptor(crc)(Tail(init)) == Accept(crc, Tail(init));
    } else {
      assert !HasGenuine(crc, stream, p);
    }
  }

  // ---- the code ----

  datatype FrameResult = Framed(length: nat) | TooLong | NoMemory

  method EncodeFrame(crc: Crc, payload: Payload, output: array<Byte>) returns (r: FrameResult)
    modifies output
    ensures r.TooLong? <==> |payload| > MAX_PAYLOAD
    ensures r.NoMemory? <==> |payload| <= MAX_PAYLOAD && output.Length < Cobs.MaxEncoded(|payload| + 1)
    ensures !r.Framed? ==> output[..] == old(output[..])
    ensures r.Framed? ==>
              r.length == |Frame(crc, payload)| <= output.Length && output[..r.length] == Frame(crc, payload)
  {
    if |payload| > MAX_PAYLOAD {
      return TooLong;
    }
    var plain := payload + [crc(payload)];
    var encoded := Cobs.EncodeInto(plain, output);
    match encoded
    case Encoded(length) => r := Framed(length);
    case NoMemory => r := NoMemory;
  }

  class Parser {
    const crc: Crc
    const accumulator: array<Byte>
    var length: nat
    var discarding: bool
    ghost var tail: seq<Byte>  // every byte since the last delimiter

    ghost predicate Valid()
      reads this, accumulator
    {
      && accumulator.Length == MAX_ENCODED
      && length <= MAX_ENCODED
      && Cobs.NonZero(tail)
      && (discarding <==> |tail| > MAX_ENCODED)
      && (if discarding then length == 0 else accumulator[..length] == tail)
    }

    constructor (crc: Crc)
      ensures Valid() && fresh(accumulator) && this.crc == crc && tail == []
    {
      this.crc := crc;
      accumulator := new Byte[MAX_ENCODED];
      length, discarding, tail := 0, false, [];
    }

    /** Hands the accumulated segment up when it decodes and its CRC matches. */
    method DeliverSegmentBytes() returns (delivered: seq<Payload>)
      requires Valid() && !discarding && length > 0
      modifies accumulator
      ensures delivered == Accept(crc, tail)
    {
      var decoded := Cobs.DecodeInPlace(accumulator, length);
      if decoded.None? {
        return [];
      }
      var decodedLength := decoded.value;
      ghost var plain := accumulator[..decodedLength];
      assert Accept(crc, tail) == Checked(crc, plain);
      if decodedLength < 1 {
        return [];
      }
      var payload := accumulator[..decodedLength - 1];
      assert payload == plain[..|plain| - 1];
      if accumulator[decodedLength - 1] != crc(payload) {
        return [];
      }
      return [payload];
    }

    /** `stream` is all that was ingested so far. */
    method IngestByte(byte: Byte, ghost stream: seq<Byte>) returns (delivered: seq<Payload>)
      requires Valid() && tail == Tail(stream)
      modifies this, accumulator
      ensures Valid() && tail == Tail(stream + [byte])
      ensures Deliver(Acceptor(crc), stream + [byte]) == Deliver(Acceptor(crc), stream) + delivered
    {
      DeliverByte(Acceptor(crc), stream, byte);
      delivered := [];
      if byte == 0 {
        if !discarding && length > 0 {
          delivered := DeliverSegmentBytes();
        }
        length, discarding, tail := 0, false, [];
        return;
      }
      tail := tail + [byte];
      if discarding {
        return;
      }
      if length >= accumulator.Length {
        length, discarding := 0, true;
        return;
      }
      Cobs.Put(accumulator, length, byte);
      length := length + 1;
    }

    /** Any chunk, arriving anywhere in a frame. */
    method Ingest(bytes: seq<Byte>) returns (delivered: seq<Payload>)
      requires Valid()
      modifies this, accumulator
      ensures Valid()
      ensures delivered == Deliver(Acceptor(crc), old(tail) + bytes)
      ensures tail == Tail(old(tail) + bytes)
    {
      delivered := [];
      ghost var start := tail;
      assert start + bytes[..0] == start;
      DeliverOpen(Acceptor(crc), start);
      for index := 0 to |bytes|
        invariant Valid()
        invariant delivered == Deliver(Acceptor(crc), start + bytes[..index])
        invariant tail == Tail(start + bytes[..index])
      {
        assert start + bytes[..index + 1] == start + bytes[..index] + [bytes[index]];
        var more := IngestByte(bytes[index], start + bytes[..index]);
        delivered := delivered + more;
      }
      assert bytes[..|bytes|] == bytes;
    }

    /** The receive thread drains its ring chunk by chunk. */
    method IngestChunks(chunks: seq<seq<Byte>>) returns (delivered: seq<Payload>)
      requires Valid()
      modifies this, accumulator
      ensures Valid()
      ensures delivered == Deliver(Acceptor(crc), old(tail) + Joined(chunks))
      ensures tail == Tail(old(tail) + Joined(chunks))
    {
      delivered := [];
      ghost var start := tail;
      assert start + Joined(chunks[..0]) == start;
      DeliverOpen(Acceptor(crc), start);
      for index := 0 to |chunks|
        invariant Valid()
        invariant delivered == Deliver(Acceptor(crc), start + Joined(chunks[..index]))
        invariant tail == Tail(start + Joined(chunks[..index]))
      {
        ghost var seen := Joined(chunks[..index]);
        assert chunks[..index + 1][..index] == chunks[..index];
        Regroup(start, seen, chunks[index]);
        DeliverAppend(Acceptor(crc), start + seen, chunks[index]);
        var more := Ingest(chunks[index]);
        delivered := delivered + more;
      }
      assert chunks[..|chunks|] == chunks;
    }
  }

  function Joined(chunks: seq<seq<Byte>>): seq<Byte> {
    if chunks == [] then [] else Joined(chunks[..|chunks| - 1]) + chunks[|chunks| - 1]
  }
}
