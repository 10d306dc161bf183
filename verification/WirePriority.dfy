/** Which ring the wire serves next, and when a frame of a lower ring goes out past a waiting one
    (src/wire_link.c:84-146). */
module WirePriority {
  import opened Common
  import opened WireFrame
  import opened FrameStream
  import opened WireLink
  import Cobs

  // ---- one chunk ----

  /** The link before a chunk, and the bytes the UART took. */
  datatype Round = Round(tx: Tx, chunk: seq<Byte>, next: Tx)

  function RoundOf(tx: Tx, window: nat, taken: int): Round
    requires tx.Valid()
  {
    Round(tx, tx.Chunk(window, taken), tx.Transmit(window, taken))
  }

  /** The chunk left ring `q` from its front, and nothing else moved. */
  ghost predicate LeftRing(round: Round, q: nat) {
    && round.tx.Valid() && q < RING_COUNT && round.chunk <= round.tx.rings[q]
    && round.next.rings == round.tx.rings[q := round.tx.rings[q][|round.chunk|..]]
  }

  /** Every ring before `q` is empty. */
  predicate NothingBefore(tx: Tx, q: nat) { forall r :: 0 <= r < q && r < |tx.rings| ==> tx.rings[r] == [] }

  /** A half-sent frame goes on; between frames the first ring with anything in it is served. */
  lemma {:induction false} RoundFrom(tx: Tx, window: nat, taken: int) returns (q: nat)
    requires tx.Valid()
    ensures var round := RoundOf(tx, window, taken);
      && LeftRing(round, q) && (if tx.frameRing.Some? then tx.frameRing == Some(q) else NothingBefore(tx, q))
      && (round.chunk == [] <==> taken <= 0 || tx.rings[q] == [])
      && |round.chunk| <= CHUNK_BYTES && |round.chunk| <= Max(taken, 0)
      && (tx.frameRing.None? && tx.rings[q] == [] ==> forall r :: 0 <= r < RING_COUNT ==> tx.rings[r] == [])
  {
    q := tx.Pick();
    assert tx.rings[q][0..] == tx.rings[q];
  }

  /** A frame starts at byte `i` of the chunk. */
  predicate StartsAt(round: Round, i: nat) {
    i < |round.chunk| && if i == 0 then round.tx.frameRing.None? else round.chunk[i - 1] == 0
  }

  /** A frame starts on the wire while a ring before its own holds something. */
  ghost predicate Overtakes(round: Round) {
    exists q, i :: LeftRing(round, q) && StartsAt(round, i) && !NothingBefore(round.tx, q)
  }

  /** A half-sent frame ends inside the chunk, more of its ring follows in it, and a ring before that
      one holds something. */
  predicate Spills(round: Round) {
    && round.tx.frameRing.Some? && !NothingBefore(round.tx, round.tx.frameRing.value)
    && exists i :: 0 <= i < |round.chunk| - 1 && round.chunk[i] == 0
  }

  lemma {:induction false} SameRing(round: Round, q: nat, q': nat)
    requires LeftRing(round, q) && LeftRing(round, q') && round.chunk != []
    ensures q == q'
  {
    assert |round.next.rings[q]| < |round.tx.rings[q]|;
  }

  /** A frame overtakes exactly when the chunk runs on past the end of a half-sent one. */
  lemma {:induction false} OvertakesIff(tx: Tx, window: nat, taken: int)
    requires tx.Valid()
    ensures Overtakes(RoundOf(tx, window, taken)) <==> Spills(RoundOf(tx, window, taken))
  {
    var round := RoundOf(tx, window, taken);
    var q := RoundFrom(tx, window, taken);
    if Overtakes(round) {
      var p, i :| LeftRing(round, p) && StartsAt(round, i) && !NothingBefore(tx, p);
      SameRing(round, p, q);
      assert i > 0 && round.chunk[i - 1] == 0;
    } else if Spills(round) {
      var i :| 0 <= i < |round.chunk| - 1 && round.chunk[i] == 0;
      assert LeftRing(round, q) && StartsAt(round, i + 1);
    }
  }

  // ---- over runs ----

  function Rounds(tx: Tx, ready: seq<(nat, int)>): seq<Round>
    requires tx.Valid()
    decreases |ready|
  {
    if ready == [] then []
    else
      var round := RoundOf(tx, ready[0].0, ready[0].1);
      [round] + if tx.KeepsGoing(ready[0].0, ready[0].1) then Rounds(round.next, ready[1..]) else []
  }

  function Bytes(rounds: seq<Round>): seq<Byte> {
    if rounds == [] then [] else Bytes(rounds[..|rounds| - 1]) + rounds[|rounds| - 1].chunk
  }

  lemma {:induction false} BytesAppend(a: seq<Round>, b: seq<Round>)
    ensures Bytes(a + b) == Bytes(a) + Bytes(b)
  {
    if b == [] {
      assert a + b == a;
    } else {
      assert (a + b)[..|a + b| - 1] == a + b[..|b| - 1];
      BytesAppend(a, b[..|b| - 1]);
    }
  }

  lemma {:induction false} BytesOne(round: Round)
    ensures Bytes([round]) == round.chunk
  {
    assert [round][..0] == [];
  }

  /** Every chunk of a run, in order. */
  function RunRounds(crc: Crc, steps: seq<Step>): seq<Round> {
    if steps == [] then []
    else
      var init, step := steps[..|steps| - 1], steps[|steps| - 1];
      RunRounds(crc, init) + if step.Interrupt? then Rounds(Run(crc, init).tx, step.ready) else []
  }

  lemma {:induction false} IsrSends(tx: Tx, ready: seq<(nat, int)>)
    requires tx.Valid()
    ensures Isr(tx, ready).1 == Bytes(Rounds(tx, ready))
    decreases |ready|
  {
    if ready != [] {
      var round := RoundOf(tx, ready[0].0, ready[0].1);
      var rest := if tx.KeepsGoing(ready[0].0, ready[0].1) then Rounds(round.next, ready[1..]) else [];
      if tx.KeepsGoing(ready[0].0, ready[0].1) { IsrSends(round.next, ready[1..]); }
      BytesAppend([round], rest);
      BytesOne(round);
    }
  }

  /** They are the wire. */
  lemma {:induction false} RoundsAreWire(crc: Crc, steps: seq<Step>)
    ensures Bytes(RunRounds(crc, steps)) == Run(crc, steps).wire
  {
    if steps != [] {
      var init, step := steps[..|steps| - 1], steps[|steps| - 1];
      RoundsAreWire(crc, init);
      if step.Interrupt? {
        IsrSends(Run(crc, init).tx, step.ready);
        BytesAppend(RunRounds(crc, init), Rounds(Run(crc, init).tx, step.ready));
      } else {
        assert RunRounds(crc, init) + [] == RunRounds(crc, init);
      }
    }
  }

  ghost predicate AsTransmitted(round: Round) {
    round.tx.Valid() && exists window, taken :: round == RoundOf(round.tx, window, taken)
  }

  lemma {:induction false} RoundsTransmitted(tx: Tx, ready: seq<(nat, int)>)
    requires tx.Valid()
    ensures forall k :: 0 <= k < |Rounds(tx, ready)| ==> AsTransmitted(Rounds(tx, ready)[k])
    decreases |ready|
  {
    if ready != [] {
      assert AsTransmitted(RoundOf(tx, ready[0].0, ready[0].1));
      if tx.KeepsGoing(ready[0].0, ready[0].1) {
        RoundsTransmitted(RoundOf(tx, ready[0].0, ready[0].1).next, ready[1..]);
      }
    }
  }

  lemma {:induction false} RunTransmitted(crc: Crc, steps: seq<Step>)
    ensures forall k :: 0 <= k < |RunRounds(crc, steps)| ==> AsTransmitted(RunRounds(crc, steps)[k])
  {
    if steps != [] {
      var init, step := steps[..|steps| - 1], steps[|steps| - 1];
      RunTransmitted(crc, init);
      if step.Interrupt? { RoundsTransmitted(Run(crc, init).tx, step.ready); }
    }
  }

  /** A chunk of a run comes from the half-sent frame's ring, or between frames from the first ring that
      has anything. */
  ghost predicate Served(round: Round) {
    exists q: nat :: LeftRing(round, q)
      && if round.tx.frameRing.Some? then round.tx.frameRing == Some(q) else NothingBefore(round.tx, q)
  }

  /** Over every run the wire is chunks each served by priority; and no frame ever starts on it past
      a waiting frame of a ring before its own, exactly when no chunk runs on past the end of a half-sent
      frame while such a ring holds something. */
  lemma {:induction false} PriorityIff(crc: Crc, steps: seq<Step>)
    ensures Bytes(RunRounds(crc, steps)) == Run(crc, steps).wire
    ensures forall k :: 0 <= k < |RunRounds(crc, steps)| ==> Served(RunRounds(crc, steps)[k])
    ensures (forall k :: 0 <= k < |RunRounds(crc, steps)| ==> !Overtakes(RunRounds(crc, steps)[k]))
            <==> (forall k :: 0 <= k < |RunRounds(crc, steps)| ==> !Spills(RunRounds(crc, steps)[k]))
  {
    RoundsAreWire(crc, steps);
    RunTransmitted(crc, steps);
    var rounds := RunRounds(crc, steps);
    forall k | 0 <= k < |rounds|
      ensures Served(rounds[k]) && (Overtakes(rounds[k]) <==> Spills(rounds[k]))
    {
      assert AsTransmitted(rounds[k]);
      RoundLaw(rounds[k]);
    }
  }

  lemma {:induction false} RoundLaw(round: Round)
    requires AsTransmitted(round)
    ensures Served(round) && (Overtakes(round) <==> Spills(round))
  {
    var window, taken :| round == RoundOf(round.tx, window, taken);
    var q := RoundFrom(round.tx, window, taken);
    OvertakesIff(round.tx, window, taken);
  }

  // ---- an idle UART empties the rings ----

  predicate Empty(tx: Tx) { tx.rings == [[], [], []] }

  function Total(tx: Tx): nat
    requires |tx.rings| == RING_COUNT
  {
    |tx.rings[0]| + |tx.rings[1]| + |tx.rings[2]|
  }

  /** The UART takes whatever it is offered. */
  predicate TakesAll(ready: seq<(nat, int)>) { forall i :: 0 <= i < |ready| ==> ready[i].1 >= CHUNK_BYTES }

  lemma {:induction false} NothingClaimed(tx: Tx, part: seq<Byte>, window: nat)
    requires HalfSent(tx, part) && tx.Claim(window) == 0
    ensures Empty(tx)
  {
    assert tx.frameRing.None?;
    assert tx.rings == [tx.rings[0], tx.rings[1], tx.rings[2]];
  }

  lemma {:induction false} WholeChunk(tx: Tx, window: nat, taken: int)
    requires tx.Valid() && tx.Claim(window) != 0 && taken >= CHUNK_BYTES
    ensures tx.KeepsGoing(window, taken) && Total(tx.Transmit(window, taken)) < Total(tx)
  {
  }

  lemma {:induction false} IsrDrains(frame: Framer, w: World, ready: seq<(nat, int)>, log: seq<Entry>,
                                     pending: seq<seq<Payload>>, part: seq<Byte>)
    requires Delimited(frame) && Explained(frame, w, log, pending, part)
    requires TakesAll(ready) && |ready| > Total(w.tx)
    ensures Empty(Isr(w.tx, ready).0) && !Isr(w.tx, ready).0.irq
    decreases |ready|
  {
    var window, taken := ready[0].0, ready[0].1;
    IsrRound(w.tx, ready, w.wire);
    if w.tx.Claim(window) == 0 {
      NothingClaimed(w.tx, part, window);
    } else {
      WholeChunk(w.tx, window, taken);
      var log', pending', part' := TransmitExplained(frame, w, window, taken, log, pending, part);
      var next := World(w.tx.Transmit(window, taken), w.accepted, w.wire + w.tx.Chunk(window, taken));
      IsrDrains(frame, next, ready[1..], log', pending', part');
    }
  }

  /** From every reachable state, one interrupt whose UART takes what it is offered leaves every accepted
      frame on the wire, and turns itself off. */
  lemma {:induction false} Drains(crc: Crc, steps: seq<Step>, ready: seq<(nat, int)>) returns (log: seq<Entry>)
    requires TakesAll(ready) && |ready| > Total(Run(crc, steps).tx)
    ensures var w := Run(crc, steps + [Interrupt(ready)]);
      && Empty(w.tx) && !w.tx.irq && w.wire == Frames(FramerOf(crc), Payloads(log))
      && forall r :: 0 <= r < RING_COUNT ==> w.accepted[r] == Of(log, r)
  {
    var all := steps + [Interrupt(ready)];
    assert all[..|steps|] == steps;
    var l, pending, part := RunExplained(crc, steps);
    FramerIsDelimited(crc);
    IsrDrains(FramerOf(crc), Run(crc, steps), ready, l, pending, part);
    log, pending, part := EndToEnd(crc, all);
    NothingLeft(crc, Run(crc, all), log, pending, part);
  }

  lemma {:induction false} NothingLeft(crc: Crc, w: World, log: seq<Entry>, pending: seq<seq<Payload>>, part: seq<Byte>)
    requires Accounted(crc, w, log, pending, part) && !w.tx.irq
    ensures w.wire == Frames(FramerOf(crc), Payloads(log))
    ensures forall r :: 0 <= r < RING_COUNT ==> w.accepted[r] == Of(log, r)
  {
    var frames := Frames(FramerOf(crc), Payloads(log));
    assert frames + [] == frames;
    forall r | 0 <= r < RING_COUNT ensures w.accepted[r] == Of(log, r) { assert Of(log, r) + [] == Of(log, r); }
  }

  // ---- room ----

  lemma {:induction false} FrameFits(crc: Crc, payload: Payload)
    requires |payload| <= MAX_PAYLOAD
    ensures 0 < |Frame(crc, payload)| <= MAX_ENCODED
  {
    Cobs.EncodedFits(payload + [crc(payload)]);
  }

  /** An empty ring takes any payload that is not oversize, and the event and input rings a second one. */
  lemma {:induction false} RoomFor(crc: Crc, tx: Tx, ring: nat, payload: Payload)
    requires tx.Valid() && ring < RING_COUNT && |payload| <= MAX_PAYLOAD
    requires |tx.rings[ring]| <= if ring == KEEPALIVE then 0 else MAX_ENCODED
    ensures tx.Fits(crc, ring, payload)
  {
    FrameFits(crc, payload);
  }

  /** No ring ever holds more than two of the largest frames, the keepalive ring more than one. */
  lemma {:induction false} RingsBounded(crc: Crc, steps: seq<Step>, ring: nat)
    requires ring < RING_COUNT
    ensures |Run(crc, steps).tx.rings[ring]| <= (if ring == 2 then 1 else 2) * MAX_ENCODED
  {
    if steps != [] {
      RingsBounded(crc, steps[..|steps| - 1], ring);
      var w, step := Run(crc, steps[..|steps| - 1]), steps[|steps| - 1];
      if step.Interrupt? { IsrShrinks(w.tx, step.ready, ring); }
    }
  }

  lemma {:induction false} IsrShrinks(tx: Tx, ready: seq<(nat, int)>, ring: nat)
    requires tx.Valid() && ring < RING_COUNT
    ensures |Isr(tx, ready).0.rings[ring]| <= |tx.rings[ring]|
    decreases |ready|
  {
    if ready != [] && tx.KeepsGoing(ready[0].0, ready[0].1) {
      IsrShrinks(tx.Transmit(ready[0].0, ready[0].1), ready[1..], ring);
    }
  }

  // ---- a waiting event that never goes ----

  /** An input frame one byte out, its rest alone in the ring, and an event frame waiting. */
  predicate Waits(tx: Tx, event: seq<Byte>, input: seq<Byte>) {
    |input| > 0 && tx == Tx([event, input[1..], []], Some(INPUT), true)
  }

  lemma {:induction false} OneMoreWaits(crc: Crc, w: World, event: seq<Byte>, p: Payload)
    requires w.Valid() && Waits(w.tx, event, Frame(crc, p)) && |p| <= MAX_PAYLOAD
    requires 1 < |Frame(crc, p)| <= CHUNK_BYTES
    ensures var size := |Frame(crc, p)|;
      var one := Do(crc, w, Step.Enqueue(INPUT, p));
      var two := Do(crc, one, Interrupt([(size, size)]));
      && Waits(two.tx, event, Frame(crc, p)) && two.accepted == w.accepted[INPUT := w.accepted[INPUT] + [p]]
      && two.wire == w.wire + (Frame(crc, p)[1..] + Frame(crc, p)[..1])
  {
    var f := Frame(crc, p);
    var size := |f|;
    FrameFits(crc, p);
    FrameEdges(crc, p);
    var one := Do(crc, w, Step.Enqueue(INPUT, p));
    assert one.tx.rings == [event, f[1..] + f, []];
    var chunk := f[1..] + f[..1];
    assert one.tx.Claim(size) >= size && one.tx.Chunk(size, size) == (f[1..] + f)[..size] == chunk;
    assert (f[1..] + f)[size..] == f[1..] && chunk[|chunk| - 1] == f[0] != 0;
    assert one.tx.Transmit(size, size).rings == [event, f[1..], []];
    var ready := [(size, size)];
    assert ready[1..] == [] && chunk + [] == chunk;
    IsrRound(one.tx, ready, one.wire);
  }

  lemma {:induction false} FrameEdges(crc: Crc, p: Payload)
    ensures var f := Frame(crc, p); |f| > 1 && f[0] != 0 && f[|f| - 1] == 0
  {
    var body := Cobs.EncodeBody(p + [crc(p)]);
    Cobs.EncodedNonZero(p + [crc(p)]);
    assert Frame(crc, p) == body + [0];
  }

  /** `n` of the input frames sent, another begun, and the event still in its ring. */
  ghost predicate Starved(crc: Crc, e: Payload, p: Payload, n: nat, w: World) {
    && w.Valid() && |Frame(crc, p)| > 0 && w.accepted == [[e], Repeat(n + 1, p), []]
    && Waits(w.tx, Frame(crc, e), Frame(crc, p))
    && w.wire == Frames(FramerOf(crc), Repeat(n, p)) + Frame(crc, p)[..1]
  }

  lemma {:induction false} StarvesOn(crc: Crc, e: Payload, p: Payload, n: nat, w: World)
    requires Starved(crc, e, p, n, w) && |p| <= MAX_PAYLOAD && 1 < |Frame(crc, p)| <= CHUNK_BYTES
    ensures var size := |Frame(crc, p)|;
      Starved(crc, e, p, n + 1, Do(crc, Do(crc, w, Step.Enqueue(INPUT, p)), Interrupt([(size, size)])))
  {
    OneMoreWaits(crc, w, Frame(crc, e), p);
    FrameMoves(crc, p, n + 1);
  }

  /** A steady input stream keeps a waiting event off the wire for as long as it lasts: each chunk ends
      one byte into the next input frame, so no ring is picked in between. */
  lemma {:induction false} EventStarves(crc: Crc, e: Payload, p: Payload, n: nat) returns (steps: seq<Step>)
    requires |e| <= MAX_PAYLOAD && |p| <= MAX_PAYLOAD && |Frame(crc, p)| <= CHUNK_BYTES
    ensures Starved(crc, e, p, n, Run(crc, steps))
  {
    FrameEdges(crc, p);
    if n == 0 {
      steps := FirstWaits(crc, e, p);
    } else {
      var before := EventStarves(crc, e, p, n - 1);
      var size := |Frame(crc, p)|;
      steps := before + [Step.Enqueue(INPUT, p)] + [Interrupt([(size, size)])];
      TwoSteps(crc, before, Step.Enqueue(INPUT, p), Interrupt([(size, size)]));
      StarvesOn(crc, e, p, n - 1, Run(crc, before));
    }
  }

  lemma {:induction false} TwoSteps(crc: Crc, before: seq<Step>, a: Step, b: Step)
    ensures Run(crc, before + [a] + [b]) == Do(crc, Do(crc, Run(crc, before), a), b)
  {
    assert (before + [a] + [b])[..|before| + 1] == before + [a] && (before + [a])[..|before|] == before;
  }

  lemma {:induction false} FrameMoves(crc: Crc, p: Payload, n: nat)
    requires n > 0 && |Frame(crc, p)| > 0
    ensures var f := Frame(crc, p);
      Frames(FramerOf(crc), Repeat(n - 1, p)) + f[..1] + (f[1..] + f[..1])
      == Frames(FramerOf(crc), Repeat(n, p)) + f[..1]
  {
    var f, before := Frame(crc, p), Frames(FramerOf(crc), Repeat(n - 1, p));
    assert f == f[..1] + f[1..];
    assert Repeat(n, p)[..n - 1] == Repeat(n - 1, p);
    assert before + f[..1] + (f[1..] + f[..1]) == before + f + f[..1];
  }

  lemma {:induction false} FirstWaits(crc: Crc, e: Payload, p: Payload) returns (steps: seq<Step>)
    requires |e| <= MAX_PAYLOAD && |p| <= MAX_PAYLOAD && |Frame(crc, p)| > 1
    ensures Starved(crc, e, p, 0, Run(crc, steps))
  {
    var two := [] + [Step.Enqueue(INPUT, p)] + [Interrupt([(1, 1)])];
    TwoSteps(crc, [], Step.Enqueue(INPUT, p), Interrupt([(1, 1)]));
    FirstByte(crc, p);
    steps := two + [Step.Enqueue(EVENT, e)];
    assert steps[..|two|] == two;
    EventQueued(crc, e, p);
  }

  lemma {:induction false} EventQueued(crc: Crc, e: Payload, p: Payload)
    requires |e| <= MAX_PAYLOAD && |Frame(crc, p)| > 1
    ensures Starved(crc, e, p, 0, Do(crc, OneOut(crc, p), Step.Enqueue(EVENT, e)))
  {
    RoomFor(crc, OneOut(crc, p).tx, EVENT, e);
    assert Repeat(1, p) == [p] && Frames(FramerOf(crc), []) == [];
    assert [] + Frame(crc, e) == Frame(crc, e) && [] + [e] == [e];
  }

  function OneOut(crc: Crc, p: Payload): World
    requires |Frame(crc, p)| > 0
  {
    World(Tx([[], Frame(crc, p)[1..], []], Some(INPUT), true), [[], [p], []], Frame(crc, p)[..1])
  }

  lemma {:induction false} FirstByte(crc: Crc, p: Payload)
    requires |p| <= MAX_PAYLOAD && |Frame(crc, p)| > 1
    ensures Do(crc, Do(crc, INIT, Step.Enqueue(INPUT, p)), Interrupt([(1, 1)])) == OneOut(crc, p)
  {
    var f := Frame(crc, p);
    RoomFor(crc, INIT.tx, INPUT, p);
    FrameEdges(crc, p);
    var one := Do(crc, INIT, Step.Enqueue(INPUT, p));
    assert [] + f == f && [] + [p] == [p] && one.tx.rings == [[], f, []];
    assert one.tx.Chunk(1, 1) == f[..1];
    assert one.tx.Transmit(1, 1).rings == [[], f[1..], []];
    var ready := [(1 as nat, 1 as int)];
    assert ready[1..] == [] && f[..1] + [] == f[..1] && [] + f[..1] == f[..1];
    IsrRound(one.tx, ready, one.wire);
  }
}
