/** Three priority rings multiplexed onto one UART (src/wire_link.c). */
module WireLink {
  import opened Common
  import opened Segments
  import opened WireFrame
  import opened FrameStream
  import Cobs

  const RING_COUNT := 3
  const EVENT := 0
  const INPUT := 1
  const KEEPALIVE := 2
  const CHUNK_BYTES := 64

  function Capacity(ring: nat): nat {
    if ring == KEEPALIVE then MAX_ENCODED else 2 * MAX_ENCODED
  }

  function Max(a: int, b: int): int { if a < b then b else a }

  /** Transmit side: the rings, the ring of a half-sent frame, and whether the TX interrupt is on. */
  datatype Tx = Tx(rings: seq<seq<Byte>>, frameRing: Option<nat>, irq: bool) {
    ghost predicate Valid() {
      |rings| == RING_COUNT && (frameRing.Some? ==> frameRing.value < RING_COUNT)
    }

    function Pick(): (ring: nat)
      requires Valid()
      ensures ring < RING_COUNT
    {
      if frameRing.Some? then frameRing.value
      else if rings[EVENT] != [] then EVENT
      else if rings[INPUT] != [] then INPUT
      else KEEPALIVE
    }

    /** Bytes offered to the UART: `window` stands for how much of the ring is contiguous. */
    function Claim(window: nat): (n: nat)
      requires Valid()
      ensures n <= |rings[Pick()]| && n <= CHUNK_BYTES
      ensures n == 0 <==> rings[Pick()] == []
    {
      Min(Max(window, 1), Min(CHUNK_BYTES, |rings[Pick()]|))
    }

    /** The UART takes any part of what it is offered, or fails. */
    function Sent(window: nat, taken: int): (n: int)
      requires Valid()
      ensures n <= Claim(window)
    {
      Min(taken, Claim(window))
    }

    function Chunk(window: nat, taken: int): (c: seq<Byte>)
      requires Valid()
      ensures c <= rings[Pick()]
    {
      rings[Pick()][..Max(Sent(window, taken), 0)]
    }

    function Transmit(window: nat, taken: int): (tx: Tx)
      requires Valid()
      ensures tx.Valid()
    {
      if Claim(window) == 0 then this.(irq := false)
      else
        var chunk := Chunk(window, taken);
        this.(rings := rings[Pick() := rings[Pick()][|chunk|..]], frameRing := Track(Pick(), chunk, frameRing))
    }

    /** The interrupt handler offers another chunk only after the UART took this one whole. */
    predicate KeepsGoing(window: nat, taken: int)
      requires Valid()
    {
      Claim(window) != 0 && Sent(window, taken) == Claim(window)
    }

    predicate Fits(crc: Crc, ring: nat, payload: Payload)
      requires Valid() && ring < RING_COUNT
    {
      |payload| <= MAX_PAYLOAD && |rings[ring]| + |Frame(crc, payload)| <= Capacity(ring)
    }

    function Enqueue(crc: Crc, ring: nat, payload: Payload): (tx: Tx)
      requires Valid() && ring < RING_COUNT
      ensures tx.Valid()
    {
      if Fits(crc, ring, payload)
      then this.(rings := rings[ring := rings[ring] + Frame(crc, payload)], irq := true)
      else this
    }
  }

  /** The ring of the frame the wire is inside of after `chunk` went out. */
  function Track(ring: nat, chunk: seq<Byte>, frameRing: Option<nat>): Option<nat> {
    if chunk == [] then frameRing else if chunk[|chunk| - 1] == 0 then None else Some(ring)
  }

  // ---- the driver ----

  datatype EnqueueResult = Queued | Oversize | NoBuffers

  class Link {
    const crc: Crc
    var rings: seq<seq<Byte>>
    var frameRing: Option<nat>
    var irq: bool

    function State(): Tx
      reads this
    {
      Tx(rings, frameRing, irq)
    }

    constructor (crc: Crc)
      ensures this.crc == crc && State() == Tx([[], [], []], None, false)
    {
      this.crc := crc;
      rings, frameRing, irq := [[], [], []], None, false;
    }

    method TrackFrame(ring: nat, chunk: seq<Byte>)
      modifies this`frameRing
      ensures frameRing == Track(ring, chunk, old(frameRing))
    {
      for index := 0 to |chunk|
        invariant frameRing == Track(ring, chunk[..index], old(frameRing))
      {
        frameRing := if chunk[index] == 0 then None else Some(ring);
      }
      assert chunk[..|chunk|] == chunk;
    }

    /** Offers one chunk of the picked ring to the UART. */
    method Offer(window: nat, taken: int) returns (chunk: seq<Byte>, more: bool)
      requires State().Valid()
      modifies this
      ensures State() == old(State()).Transmit(window, taken)
      ensures chunk == old(State()).Chunk(window, taken)
      ensures more == old(State()).KeepsGoing(window, taken)
    {
      var active := State().Pick();
      var claim := State().Claim(window);
      if claim == 0 {
        irq := false;
        return [], false;
      }
      var sent := Min(taken, claim);
      chunk := rings[active][..Max(sent, 0)];
      TrackFrame(active, chunk);
      rings := rings[active := rings[active][|chunk|..]];
      more := sent >= claim;
    }

    /** One TX interrupt: `ready` lists, while the UART has room, the ring window and what it takes. */
    method TxInterrupt(ready: seq<(nat, int)>) returns (wire: seq<Byte>)
      requires State().Valid()
      modifies this
      ensures (State(), wire) == Isr(old(State()), ready)
    {
      wire := [];
      var round, more := 0, true;
      ghost var whole := Isr(State(), ready);
      assert ready[0..] == ready && [] + whole.1 == whole.1;
      while round < |ready| && more
        invariant round <= |ready| && State().Valid()
        invariant more ==> var r := Isr(State(), ready[round..]); whole == (r.0, wire + r.1)
        invariant !more ==> whole == (State(), wire)
      {
        var chunk: seq<Byte>;
        ghost var before, rest := State(), ready[round..];
        IsrRound(before, rest, wire);
        chunk, more := Offer(ready[round].0, ready[round].1);
        wire := wire + chunk;
        round := round + 1;
        assert rest[1..] == ready[round..];
      }
      if more {
        assert ready[round..] == [] && wire + [] == wire;
      }
    }

    method Enqueue(ring: nat, payload: Payload) returns (r: EnqueueResult)
      requires State().Valid() && ring < RING_COUNT
      modifies this
      ensures State() == old(State()).Enqueue(crc, ring, payload)
      ensures r.Oversize? <==> |payload| > MAX_PAYLOAD
      ensures r.Queued? <==> old(State()).Fits(crc, ring, payload)
    {
      var framed := new Byte[MAX_ENCODED];
      var encoded := EncodeFrame(crc, payload, framed);
      if !encoded.Framed? {
        return Oversize;
      }
      if Capacity(ring) - |rings[ring]| < encoded.length {
        return NoBuffers;
      }
      rings := rings[ring := rings[ring] + framed[..encoded.length]];
      irq := true;
      r := Queued;
    }
  }

  function Isr(tx: Tx, ready: seq<(nat, int)>): (r: (Tx, seq<Byte>))
    requires tx.Valid()
    ensures r.0.Valid()
    decreases |ready|
  {
    if ready == [] then (tx, [])
    else
      var window, taken := ready[0].0, ready[0].1;
      var next, chunk := tx.Transmit(window, taken), tx.Chunk(window, taken);
      if !tx.KeepsGoing(window, taken) then (next, chunk)
      else var rest := Isr(next, ready[1..]); (rest.0, chunk + rest.1)
  }

  lemma {:induction false} IsrRound(tx: Tx, ready: seq<(nat, int)>, wire: seq<Byte>)
    requires tx.Valid() && ready != []
    ensures var next, chunk := tx.Transmit(ready[0].0, ready[0].1), tx.Chunk(ready[0].0, ready[0].1);
            if tx.KeepsGoing(ready[0].0, ready[0].1)
            then Isr(tx, ready).0 == Isr(next, ready[1..]).0
                 && wire + Isr(tx, ready).1 == wire + chunk + Isr(next, ready[1..]).1
            else Isr(tx, ready) == (next, chunk)
  {
  }

  // ---- whole runs ----

  /** The link and what it has done: payloads taken into each ring, and bytes put on the wire. */
  datatype World = World(tx: Tx, accepted: seq<seq<Payload>>, wire: seq<Byte>) {
    ghost predicate Valid() { tx.Valid() && |accepted| == RING_COUNT }
  }

  datatype Step = Enqueue(ring: nat, payload: Payload) | Interrupt(ready: seq<(nat, int)>)

  const INIT := World(Tx([[], [], []], None, false), [[], [], []], [])

  function Do(crc: Crc, w: World, step: Step): (w': World)
    requires w.Valid()
    ensures w'.Valid()
  {
    match step
    case Enqueue(ring, payload) =>
      if ring < RING_COUNT && w.tx.Fits(crc, ring, payload)
      then World(w.tx.Enqueue(crc, ring, payload), w.accepted[ring := w.accepted[ring] + [payload]], w.wire)
      else w
    case Interrupt(ready) =>
      var r := Isr(w.tx, ready);
      World(r.0, w.accepted, w.wire + r.1)
  }

  function Run(crc: Crc, steps: seq<Step>): (w: World)
    ensures w.Valid()
  {
    if steps == [] then INIT else Do(crc, Run(crc, steps[..|steps| - 1]), steps[|steps| - 1])
  }

  /** A frame that is wholly on the wire, and the ring it came from. */
  datatype Entry = Entry(ring: nat, payload: Payload)

  function Payloads(log: seq<Entry>): (ps: seq<Payload>)
    ensures |ps| == |log| && forall i :: 0 <= i < |log| ==> ps[i] == log[i].payload
  {
    if log == [] then [] else Payloads(log[..|log| - 1]) + [log[|log| - 1].payload]
  }

  function Of(log: seq<Entry>, ring: nat): seq<Payload> {
    if log == [] then []
    else
      var last := log[|log| - 1];
      Of(log[..|log| - 1], ring) + if last.ring == ring then [last.payload] else []
  }

  function Tagged(ring: nat, ps: seq<Payload>): seq<Entry> {
    seq(|ps|, i requires 0 <= i < |ps| => Entry(ring, ps[i]))
  }

  /** `log` lists the frames wholly on the wire, `pending` what each ring still owes, and `part`
      is the half-sent frame: whatever a ring holds, together with its half-sent part, is
      exactly the frames it still owes. */
  ghost predicate Explained(frame: Framer, w: World, log: seq<Entry>, pending: seq<seq<Payload>>, part: seq<Byte>) {
    && w.Valid()
    && (forall i :: 0 <= i < |log| ==> log[i].ring < RING_COUNT)
    && w.wire == Frames(frame, Payloads(log)) + part
    && HalfSent(w.tx, part)
    && RingsExplained(frame, w, log, pending, part)
  }

  ghost predicate RingsExplained(frame: Framer, w: World, log: seq<Entry>, pending: seq<seq<Payload>>,
                                 part: seq<Byte>) {
    && w.Valid()
    && |pending| == RING_COUNT
    && forall r :: 0 <= r < RING_COUNT ==>
         Owes(frame, w.accepted[r], Of(log, r), pending[r], PartOf(w.tx.frameRing, r, part), w.tx.rings[r])
  }

  /** A half-sent frame's ring is never empty, and a silent interrupt leaves no bytes behind. */
  ghost predicate HalfSent(tx: Tx, part: seq<Byte>) {
    && tx.Valid()
    && Cobs.NonZero(part)
    && (part == [] <==> tx.frameRing.None?)
    && (part != [] ==> tx.rings[tx.frameRing.value] != [])
    && (!tx.irq ==> forall r :: 0 <= r < RING_COUNT ==> tx.rings[r] == [])
  }

  ghost predicate Owes(frame: Framer, accepted: seq<Payload>, sent: seq<Payload>, owed: seq<Payload>,
                       part: seq<Byte>, bytes: seq<Byte>) {
    accepted == sent + owed && Frames(frame, owed) == part + bytes
  }

  function PartOf(frameRing: Option<nat>, ring: nat, part: seq<Byte>): seq<Byte> {
    if frameRing == Some(ring) then part else []
  }

  // ---- the invariant over a run ----

  lemma {:induction false} PayloadsAppend(a: seq<Entry>, b: seq<Entry>)
    ensures Payloads(a + b) == Payloads(a) + Payloads(b)
  {
    if b == [] {
      assert a + b == a;
    } else {
      assert (a + b)[..|a + b| - 1] == a + b[..|b| - 1];
      PayloadsAppend(a, b[..|b| - 1]);
    }
  }

  lemma {:induction false} OfAppend(a: seq<Entry>, b: seq<Entry>, ring: nat)
    ensures Of(a + b, ring) == Of(a, ring) + Of(b, ring)
  {
    if b == [] {
      assert a + b == a;
    } else {
      assert (a + b)[..|a + b| - 1] == a + b[..|b| - 1];
      OfAppend(a, b[..|b| - 1], ring);
    }
  }

  lemma {:induction false} TaggedOf(q: nat, ps: seq<Payload>, ring: nat)
    ensures Payloads(Tagged(q, ps)) == ps
    ensures Of(Tagged(q, ps), ring) == if ring == q then ps else []
  {
    if ps != [] {
      var init := ps[..|ps| - 1];
      assert Tagged(q, ps)[..|ps| - 1] == Tagged(q, init);
      TaggedOf(q, init, ring);
      assert ps == init + [ps[|ps| - 1]];
    }
  }

  /** Moving the first `k` owed payloads of ring `q` to the log keeps every ring's order. */
  lemma {:induction false} LogTagged(log: seq<Entry>, q: nat, owed: seq<Payload>, k: nat, ring: nat)
    requires k <= |owed|
    ensures ring == q ==> Of(log, q) + owed == Of(log + Tagged(q, owed[..k]), q) + owed[k..]
    ensures ring != q ==> Of(log + Tagged(q, owed[..k]), ring) == Of(log, ring)
  {
    OfAppend(log, Tagged(q, owed[..k]), ring);
    TaggedOf(q, owed[..k], ring);
    assert owed == owed[..k] + owed[k..];
    if ring == q { Regroup(Of(log, q), owed[..k], owed[k..]); } else { assert Of(log, ring) + [] == Of(log, ring); }
  }

  lemma {:induction false} EnqueueExplained(crc: Crc, w: World, ring: nat, payload: Payload, log: seq<Entry>,
                                            pending: seq<seq<Payload>>, part: seq<Byte>)
    requires Explained(FramerOf(crc), w, log, pending, part)
    requires ring < RING_COUNT && w.tx.Fits(crc, ring, payload)
    ensures Explained(FramerOf(crc), Do(crc, w, Enqueue(ring, payload)), log,
                      pending[ring := pending[ring] + [payload]], part)
  {
    var frame := FramerOf(crc);
    FramesAppend(frame, pending[ring], [payload]);
    FramesOne(frame, payload);
    Regroup(Of(log, ring), pending[ring], [payload]);
    Regroup(PartOf(w.tx.frameRing, ring, part), w.tx.rings[ring], frame(payload));
  }

  /** Sending `chunk` of ring `q`: the half-sent part and the chunk are `k` whole frames and a new part. */
  lemma {:induction false} ChunkExplained(frame: Framer, w: World, w': World, q: nat, chunk: seq<Byte>,
                                          rest: seq<Byte>, log: seq<Entry>, pending: seq<seq<Payload>>,
                                          part: seq<Byte>, k: nat, y: seq<Byte>)
    requires Explained(frame, w, log, pending, part) && q < RING_COUNT
    requires w.tx.frameRing.None? || w.tx.frameRing == Some(q)
    requires chunk != [] && w.tx.rings[q] == chunk + rest
    requires w' == World(Tx(w.tx.rings[q := rest], Track(q, chunk, w.tx.frameRing), w.tx.irq), w.accepted,
                         w.wire + chunk)
    requires k <= |pending[q]| && part + chunk == Frames(frame, pending[q][..k]) + y
    requires Frames(frame, pending[q][k..]) == y + rest
    requires Cobs.NonZero(y) && (y == [] <==> chunk[|chunk| - 1] == 0) && (y != [] ==> rest != [])
    ensures Explained(frame, w', log + Tagged(q, pending[q][..k]), pending[q := pending[q][k..]], y)
  {
    WireMoves(frame, w.wire, log, part, chunk, q, pending[q][..k], y);
    RingsMove(frame, w, w', q, rest, log, pending, part, k, y);
    assert w.tx.irq;
  }

  lemma {:induction false} RingsMove(frame: Framer, w: World, w': World, q: nat, rest: seq<Byte>, log: seq<Entry>,
                                     pending: seq<seq<Payload>>, part: seq<Byte>, k: nat, y: seq<Byte>)
    requires RingsExplained(frame, w, log, pending, part) && q < RING_COUNT
    requires w.tx.frameRing.None? || w.tx.frameRing == Some(q)
    requires w'.Valid() && w'.tx.rings == w.tx.rings[q := rest] && w'.accepted == w.accepted
    requires w'.tx.frameRing == if y == [] then None else Some(q)
    requires k <= |pending[q]| && Frames(frame, pending[q][k..]) == y + rest
    ensures RingsExplained(frame, w', log + Tagged(q, pending[q][..k]), pending[q := pending[q][k..]], y)
  {
    var log', pending' := log + Tagged(q, pending[q][..k]), pending[q := pending[q][k..]];
    forall r | 0 <= r < RING_COUNT
      ensures Owes(frame, w'.accepted[r], Of(log', r), pending'[r], PartOf(w'.tx.frameRing, r, y), w'.tx.rings[r])
    {
      LogTagged(log, q, pending[q], k, r);
      assert Owes(frame, w.accepted[r], Of(log, r), pending[r], PartOf(w.tx.frameRing, r, part), w.tx.rings[r]);
    }
  }

  lemma {:induction false} NothingSent(frame: Framer, w: World, window: nat, taken: int, log: seq<Entry>,
                                       pending: seq<seq<Payload>>, part: seq<Byte>)
    requires Explained(frame, w, log, pending, part) && w.tx.Chunk(window, taken) == []
    ensures Explained(frame, World(w.tx.Transmit(window, taken), w.accepted, w.wire + w.tx.Chunk(window, taken)),
                      log, pending, part)
  {
    var tx, q := w.tx, w.tx.Pick();
    assert w.wire + [] == w.wire;
    assert tx.rings[q][0..] == tx.rings[q];
    assert tx.Transmit(window, taken) == tx || tx.Transmit(window, taken) == tx.(irq := false);
  }

  lemma {:induction false} TransmitExplained(frame: Framer, w: World, window: nat, taken: int, log: seq<Entry>,
                                             pending: seq<seq<Payload>>, part: seq<Byte>)
    returns (log': seq<Entry>, pending': seq<seq<Payload>>, part': seq<Byte>)
    requires Delimited(frame) && Explained(frame, w, log, pending, part)
    ensures Explained(frame, World(w.tx.Transmit(window, taken), w.accepted, w.wire + w.tx.Chunk(window, taken)),
                      log', pending', part')
  {
    var tx, q, chunk := w.tx, w.tx.Pick(), w.tx.Chunk(window, taken);
    if chunk == [] {
      log', pending', part' := log, pending, part;
      NothingSent(frame, w, window, taken, log, pending, part);
      return;
    }
    var rest := tx.rings[q][|chunk|..];
    assert tx.rings[q] == chunk + rest;
    assert PartOf(tx.frameRing, q, part) == part;
    Regroup(part, chunk, rest);
    var k, y := SplitPrefix(frame, pending[q], part + chunk, rest);
    assert (part + chunk)[|part + chunk| - 1] == chunk[|chunk| - 1];
    var w' := World(tx.Transmit(window, taken), w.accepted, w.wire + chunk);
    ChunkExplained(frame, w, w', q, chunk, rest, log, pending, part, k, y);
    log', pending', part' := log + Tagged(q, pending[q][..k]), pending[q := pending[q][k..]], y;
  }

  lemma {:induction false} WireMoves(frame: Framer, wire: seq<Byte>, log: seq<Entry>, part: seq<Byte>,
                                     chunk: seq<Byte>, q: nat, ps: seq<Payload>, y: seq<Byte>)
    requires wire == Frames(frame, Payloads(log)) + part && part + chunk == Frames(frame, ps) + y
    ensures wire + chunk == Frames(frame, Payloads(log + Tagged(q, ps))) + y
  {
    PayloadsAppend(log, Tagged(q, ps));
    TaggedOf(q, ps, q);
    FramesAppend(frame, Payloads(log), ps);
    Regroup(Frames(frame, Payloads(log)), part, chunk);
    Regroup(Frames(frame, Payloads(log)), Frames(frame, ps), y);
  }

  lemma {:induction false} IsrExplained(frame: Framer, w: World, ready: seq<(nat, int)>, log: seq<Entry>,
                                        pending: seq<seq<Payload>>, part: seq<Byte>)
    returns (log': seq<Entry>, pending': seq<seq<Payload>>, part': seq<Byte>)
    requires Delimited(frame) && Explained(frame, w, log, pending, part)
    ensures Explained(frame, World(Isr(w.tx, ready).0, w.accepted, w.wire + Isr(w.tx, ready).1), log', pending', part')
    decreases |ready|
  {
    if ready == [] {
      log', pending', part' := log, pending, part;
      assert w.wire + [] == w.wire;
      return;
    }
    var window, taken := ready[0].0, ready[0].1;
    var next := World(w.tx.Transmit(window, taken), w.accepted, w.wire + w.tx.Chunk(window, taken));
    log', pending', part' := TransmitExplained(frame, w, window, taken, log, pending, part);
    IsrRound(w.tx, ready, w.wire);
    if w.tx.KeepsGoing(window, taken) {
      log', pending', part' := IsrExplained(frame, next, ready[1..], log', pending', part');
    }
  }

  lemma {:induction false} DoExplained(crc: Crc, w: World, step: Step, log: seq<Entry>, pending: seq<seq<Payload>>,
                                       part: seq<Byte>)
    returns (log': seq<Entry>, pending': seq<seq<Payload>>, part': seq<Byte>)
    requires Explained(FramerOf(crc), w, log, pending, part)
    ensures Explained(FramerOf(crc), Do(crc, w, step), log', pending', part')
  {
    log', pending', part' := log, pending, part;
    match step
    case Enqueue(ring, payload) =>
      if ring < RING_COUNT && w.tx.Fits(crc, ring, payload) {
        EnqueueExplained(crc, w, ring, payload, log, pending, part);
        pending' := pending[ring := pending[ring] + [payload]];
      }
    case Interrupt(ready) =>
      FramerIsDelimited(crc);
      log', pending', part' := IsrExplained(FramerOf(crc), w, ready, log, pending, part);
  }

  lemma {:induction false} RunExplained(crc: Crc, steps: seq<Step>)
    returns (log: seq<Entry>, pending: seq<seq<Payload>>, part: seq<Byte>)
    ensures Explained(FramerOf(crc), Run(crc, steps), log, pending, part)
    decreases |steps|
  {
    if steps == [] {
      log, pending, part := [], [[], [], []], [];
      return;
    }
    log, pending, part := RunExplained(crc, steps[..|steps| - 1]);
    log, pending, part := DoExplained(crc, Run(crc, steps[..|steps| - 1]), steps[|steps| - 1], log, pending, part);
  }

  lemma {:induction false} AcceptedAreSendable(crc: Crc, steps: seq<Step>, ring: nat)
    requires ring < RING_COUNT
    ensures Sendable(Run(crc, steps).accepted[ring])
    decreases |steps|
  {
    if steps != [] {
      AcceptedAreSendable(crc, steps[..|steps| - 1], ring);
    }
  }

  lemma {:induction false} LogSendable(log: seq<Entry>)
    requires forall i :: 0 <= i < |log| ==> log[i].ring < RING_COUNT
    requires forall r :: 0 <= r < RING_COUNT ==> Sendable(Of(log, r))
    ensures Sendable(Payloads(log))
  {
    if log != [] {
      var init, last := log[..|log| - 1], log[|log| - 1];
      forall r | 0 <= r < RING_COUNT
        ensures Sendable(Of(init, r))
      {
        assert Of(init, r) <= Of(log, r);
      }
      LogSendable(init);
      assert Of(log, last.ring)[|Of(init, last.ring)|] == last.payload;
    }
  }

  lemma {:induction false} OwesNothing(frame: Framer, owed: seq<Payload>)
    requires Delimited(frame)
    ensures Frames(frame, owed) == [] ==> owed == []
  {
    if owed != [] {
      assert |frame(owed[|owed| - 1])| > 0;
    }
  }

  /** The half-sent part is the start of the next frame its ring owes, and not all of it. */
  ghost predicate StartsNext(frame: Framer, tx: Tx, pending: seq<seq<Payload>>, part: seq<Byte>)
    requires tx.Valid() && |pending| == RING_COUNT
  {
    part != [] ==>
      && tx.frameRing.Some? && pending[tx.frameRing.value] != []
      && part < frame(pending[tx.frameRing.value][0])
  }

  lemma {:induction false} PartOfFrame(frame: Framer, owed: seq<Payload>, part: seq<Byte>, bytes: seq<Byte>)
    requires Delimited(frame) && Frames(frame, owed) == part + bytes && Cobs.NonZero(part) && part != []
    ensures owed != [] && part < frame(owed[0])
  {
    FramesFirst(frame, owed);
    var f, rest := frame(owed[0]), Frames(frame, owed[1..]);
    assert part == (part + bytes)[..|part|] == (f + rest)[..|part|];
    assert forall i :: 0 <= i < |part| && i < |f| ==> part[i] == (f + rest)[i] == f[i];
    assert |part| < |f|;
  }

  lemma {:induction false} PartStartsNext(crc: Crc, w: World, log: seq<Entry>, pending: seq<seq<Payload>>,
                                          part: seq<Byte>)
    requires Explained(FramerOf(crc), w, log, pending, part)
    ensures StartsNext(FramerOf(crc), w.tx, pending, part)
  {
    if part != [] {
      var r := w.tx.frameRing.value;
      FramerIsDelimited(crc);
      assert Owes(FramerOf(crc), w.accepted[r], Of(log, r), pending[r], part, w.tx.rings[r]);
      PartOfFrame(FramerOf(crc), pending[r], part, w.tx.rings[r]);
    }
  }

  /** Where every frame accepted so far is: `log` the frames wholly on the wire, in wire order; `pending`
      what each ring still owes; `part` the bytes of a frame that is on its way. */
  ghost predicate Accounted(crc: Crc, w: World, log: seq<Entry>, pending: seq<seq<Payload>>, part: seq<Byte>) {
    && w.Valid() && |pending| == RING_COUNT
    && w.wire == Frames(FramerOf(crc), Payloads(log)) + part
    && StartsNext(FramerOf(crc), w.tx, pending, part)
    && (forall i :: 0 <= i < |log| ==> log[i].ring < RING_COUNT)
    && (forall r :: 0 <= r < RING_COUNT ==> w.accepted[r] == Of(log, r) + pending[r])
    && (w.tx.frameRing.Some? ==> w.tx.rings[w.tx.frameRing.value] != [])
    && (!w.tx.irq ==> forall r :: 0 <= r < RING_COUNT ==> pending[r] == [])
  }

  /** The top theorem.  Whatever was queued on the three rings and however the UART took it, the
      receiver delivers exactly the payloads of the frames that are wholly on the wire, no two of
      them spliced; each ring's frames keep their order and none is skipped; the link cannot stall
      inside a frame; and once the interrupt went quiet everything accepted was delivered. */
  lemma {:induction false} EndToEnd(crc: Crc, steps: seq<Step>)
    returns (log: seq<Entry>, pending: seq<seq<Payload>>, part: seq<Byte>)
    ensures Accounted(crc, Run(crc, steps), log, pending, part)
    ensures Deliver(Acceptor(crc), Run(crc, steps).wire) == Payloads(log)
  {
    log, pending, part := RunExplained(crc, steps);
    var w := Run(crc, steps);
    PartStartsNext(crc, w, log, pending, part);
    LogWasAccepted(crc, steps, log, pending, part);
    DeliversLog(crc, log, part);
    forall r | 0 <= r < RING_COUNT
      ensures w.accepted[r] == Of(log, r) + pending[r]
      ensures !w.tx.irq ==> pending[r] == []
    {
      RingSettled(crc, w, log, pending, part, r);
    }
  }

  lemma {:induction false} DeliversLog(crc: Crc, log: seq<Entry>, part: seq<Byte>)
    requires Sendable(Payloads(log)) && Cobs.NonZero(part)
    ensures Deliver(Acceptor(crc), Frames(FramerOf(crc), Payloads(log)) + part) == Payloads(log)
  {
    var frames := Frames(FramerOf(crc), Payloads(log));
    Resynchronises(crc, [], Payloads(log));
    assert [] + frames == frames && Deliver(Acceptor(crc), []) == [];
    assert [] + Payloads(log) == Payloads(log) && [] + part == part;
    DeliverAppend(Acceptor(crc), frames, part);
    DeliverOpen(Acceptor(crc), part);
  }

  lemma {:induction false} RingSettled(crc: Crc, w: World, log: seq<Entry>, pending: seq<seq<Payload>>, part: seq<Byte>,
                                       r: nat)
    requires Explained(FramerOf(crc), w, log, pending, part) && r < RING_COUNT
    ensures w.accepted[r] == Of(log, r) + pending[r]
    ensures !w.tx.irq ==> pending[r] == []
  {
    assert Owes(FramerOf(crc), w.accepted[r], Of(log, r), pending[r], PartOf(w.tx.frameRing, r, part), w.tx.rings[r]);
    if !w.tx.irq {
      FramerIsDelimited(crc);
      OwesNothing(FramerOf(crc), pending[r]);
    }
  }

  lemma {:induction false} LogWasAccepted(crc: Crc, steps: seq<Step>, log: seq<Entry>, pending: seq<seq<Payload>>,
                                          part: seq<Byte>)
    requires Explained(FramerOf(crc), Run(crc, steps), log, pending, part)
    ensures Sendable(Payloads(log))
  {
    forall r | 0 <= r < RING_COUNT
      ensures Sendable(Of(log, r))
    {
      RingSettled(crc, Run(crc, steps), log, pending, part, r);
      AcceptedAreSendable(crc, steps, r);
      assert Of(log, r) <= Run(crc, steps).accepted[r];
    }
    LogSendable(log);
  }

  /** The receiving end: through any chunking of the wire, just what is wholly on it. */
  method Receive(crc: Crc, ghost steps: seq<Step>, chunks: seq<seq<Byte>>) returns (delivered: seq<Payload>)
    requires Joined(chunks) == Run(crc, steps).wire
    ensures exists log, pending, part ::
              Accounted(crc, Run(crc, steps), log, pending, part) && delivered == Payloads(log)
  {
    var parser := new Parser(crc);
    delivered := parser.IngestChunks(chunks);
    ghost var log, pending, part := EndToEnd(crc, steps);
    assert [] + Joined(chunks) == Joined(chunks);
  }
}
