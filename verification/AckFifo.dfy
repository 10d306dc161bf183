/** Occupancy of the shared ACK payload FIFO, as the counters describe how heads leave
    (src/esb_stats.c:34-37, src/esb_stats.c:90-109, src/esb_link.c:122-159,
    src/esb_link_central.c:318-334). */
module AckFifo {
  /** Per pipe: replies waiting, and whether an ACK already carried the head; `tx` is the total
      the stats keep, `refused` counts writes the FIFO turned away. */
  datatype Fifo = Fifo(queued: seq<nat>, offered: seq<bool>, tx: int, refused: nat)

  function Sum(s: seq<nat>): nat {
    if s == [] then 0 else Sum(s[..|s| - 1]) + s[|s| - 1]
  }

  ghost predicate Shaped(f: Fifo, pipes: nat) { |f.queued| == |f.offered| == pipes }

  /** A packet asking for an ACK on `pipe`: an offered head leaves, the next one is offered. */
  function Asked(f: Fifo, pipe: nat): (f': Fifo)
    requires |f.queued| == |f.offered|
    ensures |f'.queued| == |f'.offered| == |f.queued|
  {
    if pipe >= |f.queued| then f
    else
      var leaves := f.offered[pipe] && f.queued[pipe] > 0;
      var left := if leaves then f.queued[pipe] - 1 else f.queued[pipe];
      Fifo(f.queued[pipe := left], f.offered[pipe := left > 0],
           if !leaves then f.tx else if f.tx <= 0 then 0 else f.tx - 1, f.refused)
  }

  /** One reply written on `pipe`, refused by a full FIFO. */
  function Written(f: Fifo, pipe: nat, capacity: nat): (f': Fifo)
    requires |f.queued| == |f.offered| && pipe < |f.queued|
    ensures |f'.queued| == |f'.offered| == |f.queued|
  {
    if Sum(f.queued) >= capacity then f.(refused := f.refused + 1)
    else Fifo(f.queued[pipe := f.queued[pipe] + 1], f.offered, f.tx + 1, f.refused)
  }

  function AskAll(f: Fifo, asks: seq<nat>): (f': Fifo)
    requires |f.queued| == |f.offered|
    ensures |f'.queued| == |f'.offered| == |f.queued|
  {
    if asks == [] then f else Asked(AskAll(f, asks[..|asks| - 1]), asks[|asks| - 1])
  }

  /** At most one write on each pipe below `upTo` that was asked and has a reply. */
  function WriteAll(f: Fifo, asks: seq<nat>, ready: set<nat>, capacity: nat, upTo: nat): (f': Fifo)
    requires |f.queued| == |f.offered| && upTo <= |f.queued|
    ensures |f'.queued| == |f'.offered| == |f.queued|
  {
    if upTo == 0 then f
    else
      var before := WriteAll(f, asks, ready, capacity, upTo - 1);
      if upTo - 1 in asks && upTo - 1 in ready then Written(before, upTo - 1, capacity) else before
  }

  /** One drained RX batch, or a flush of the whole FIFO. */
  datatype Step = Batch(asks: seq<nat>, ready: set<nat>) | Flush

  function Do(f: Fifo, step: Step, capacity: nat): (f': Fifo)
    requires |f.queued| == |f.offered|
    ensures |f'.queued| == |f'.offered| == |f.queued|
  {
    match step
    case Batch(asks, ready) => WriteAll(AskAll(f, asks), asks, ready, capacity, |f.queued|)
    case Flush => Fifo(seq(|f.queued|, i => 0), seq(|f.queued|, i => false), 0, f.refused)
  }

  function Run(pipes: nat, capacity: nat, steps: seq<Step>): (f: Fifo)
    ensures |f.queued| == |f.offered| == pipes
  {
    if steps == [] then Fifo(seq(pipes, i => 0), seq(pipes, i => false), 0, 0)
    else Do(Run(pipes, capacity, steps[..|steps| - 1]), steps[|steps| - 1], capacity)
  }

  // ---- the code ----

  class Counters {
    var queued: seq<nat>
    var offered: seq<bool>
    var tx: int
    var refused: nat
    const capacity: nat

    function State(): Fifo
      reads this
    {
      Fifo(queued, offered, tx, refused)
    }

    constructor (pipes: nat, capacity: nat)
      ensures State() == Run(pipes, capacity, []) && this.capacity == capacity
    {
      this.capacity := capacity;
      queued, offered, tx, refused := seq(pipes, i => 0), seq(pipes, i => false), 0, 0;
    }

    method ReplyAsked(pipe: nat)
      requires |queued| == |offered|
      modifies this
      ensures State() == Asked(old(State()), pipe)
    {
      if pipe >= |queued| {
        return;
      }
      if offered[pipe] && queued[pipe] > 0 {
        queued := queued[pipe := queued[pipe] - 1];
        tx := if tx <= 0 then 0 else tx - 1;
      }
      offered := offered[pipe := queued[pipe] > 0];
    }

    method WriteReply(pipe: nat) returns (ok: bool)
      requires |queued| == |offered| && pipe < |queued|
      modifies this
      ensures State() == Written(old(State()), pipe, capacity)
      ensures ok <==> refused == old(refused)
    {
      if Sum(queued) >= capacity {
        refused := refused + 1;
        return false;
      }
      queued := queued[pipe := queued[pipe] + 1];
      tx := tx + 1;
      ok := true;
    }

    /** Drains the RX FIFO, then answers each pipe that asked, once. */
    method RxReceived(asks: seq<nat>, ready: set<nat>)
      requires |queued| == |offered|
      modifies this
      ensures State() == Do(old(State()), Batch(asks, ready), capacity)
    {
      ghost var start := State();
      for i := 0 to |asks|
        invariant State() == AskAll(start, asks[..i])
      {
        assert asks[..i + 1][..i] == asks[..i];
        ReplyAsked(asks[i]);
      }
      assert asks[..|asks|] == asks;
      ghost var asked := State();
      for pipe := 0 to |queued|
        invariant |queued| == |offered| == |asked.queued|
        invariant State() == WriteAll(asked, asks, ready, capacity, pipe)
      {
        if pipe in asks && pipe in ready {
          var ok := WriteReply(pipe);
        }
      }
    }
  }

  // ---- the bound ----

  lemma {:induction false} SumUpdate(s: seq<nat>, i: nat, v: nat)
    requires i < |s|
    ensures Sum(s[i := v]) == Sum(s) - s[i] + v
  {
    var n := |s| - 1;
    if i == n {
      assert s[i := v][..n] == s[..n];
    } else {
      assert s[i := v][..n] == s[..n][i := v];
      SumUpdate(s[..n], i, v);
    }
  }

  lemma {:induction false} SumBound(s: seq<nat>, b: nat)
    requires forall i :: 0 <= i < |s| ==> s[i] <= b
    ensures Sum(s) <= b * |s|
  {
    if s != [] {
      SumBound(s[..|s| - 1], b);
      assert b * |s| == b * (|s| - 1) + b;
    }
  }

  lemma {:induction false} SumSame(s: seq<nat>, b: nat)
    requires forall i :: 0 <= i < |s| ==> s[i] == b
    ensures Sum(s) == b * |s|
  {
    if s != [] {
      SumSame(s[..|s| - 1], b);
      assert b * |s| == b * (|s| - 1) + b;
    }
  }

  /** A pipe holds at most two replies, the second only behind a head an ACK already carried. */
  ghost predicate Bounded(f: Fifo, pipes: nat) {
    && Shaped(f, pipes)
    && f.tx == Sum(f.queued)
    && forall p :: 0 <= p < pipes ==> f.queued[p] <= 2 && (f.queued[p] == 2 ==> f.offered[p])
  }

  ghost predicate Answerable(f: Fifo, pipe: nat)
    requires pipe < |f.queued| && |f.queued| == |f.offered|
  {
    f.queued[pipe] <= 1 && (f.queued[pipe] == 1 ==> f.offered[pipe])
  }

  lemma {:induction false} AskedBounded(f: Fifo, pipes: nat, pipe: nat)
    requires Bounded(f, pipes)
    ensures Bounded(Asked(f, pipe), pipes) && Asked(f, pipe).refused == f.refused
    ensures pipe < pipes ==> Answerable(Asked(f, pipe), pipe)
    ensures forall p :: 0 <= p < pipes && Answerable(f, p) ==> Answerable(Asked(f, pipe), p)
  {
    if pipe < pipes {
      SumUpdate(f.queued, pipe, Asked(f, pipe).queued[pipe]);
      SumUpdate(f.queued, pipe, 0);
    }
  }

  lemma {:induction false} AskAllBounded(f: Fifo, pipes: nat, asks: seq<nat>)
    requires Bounded(f, pipes)
    ensures Bounded(AskAll(f, asks), pipes) && AskAll(f, asks).refused == f.refused
    ensures forall p :: 0 <= p < pipes && p in asks ==> Answerable(AskAll(f, asks), p)
  {
    if asks != [] {
      var init, last := asks[..|asks| - 1], asks[|asks| - 1];
      AskAllBounded(f, pipes, init);
      AskedBounded(AskAll(f, init), pipes, last);
      assert forall p :: p in asks ==> p in init || p == last;
    }
  }

  lemma {:induction false} WrittenBounded(f: Fifo, pipes: nat, pipe: nat, capacity: nat)
    requires Bounded(f, pipes) && pipe < pipes && Answerable(f, pipe) && capacity >= 2 * pipes
    ensures Bounded(Written(f, pipe, capacity), pipes) && Written(f, pipe, capacity).refused == f.refused
  {
    SumBound(f.queued[pipe := 2], 2);
    SumUpdate(f.queued, pipe, 2);
    SumUpdate(f.queued, pipe, f.queued[pipe] + 1);
  }

  lemma {:induction false} WriteAllBounded(f: Fifo, pipes: nat, asks: seq<nat>, ready: set<nat>, capacity: nat,
                                           upTo: nat)
    requires Bounded(f, pipes) && capacity >= 2 * pipes && upTo <= pipes
    requires forall p :: 0 <= p < pipes && p in asks ==> Answerable(f, p)
    ensures BoundedBelow(f, WriteAll(f, asks, ready, capacity, upTo), pipes, upTo)
  {
    if upTo > 0 {
      WriteAllBounded(f, pipes, asks, ready, capacity, upTo - 1);
      var before := WriteAll(f, asks, ready, capacity, upTo - 1);
      if upTo - 1 in asks && upTo - 1 in ready { BoundedNext(f, before, pipes, upTo - 1, capacity); }
    }
  }

  /** `f'` is within the bound and refused nothing; from `upTo` on it is `f`. */
  ghost predicate BoundedBelow(f: Fifo, f': Fifo, pipes: nat, upTo: nat)
    requires Shaped(f, pipes)
  {
    && Bounded(f', pipes) && f'.refused == f.refused
    && forall p :: upTo <= p < pipes ==> f'.queued[p] == f.queued[p] && f'.offered[p] == f.offered[p]
  }

  lemma {:induction false} BoundedNext(f: Fifo, before: Fifo, pipes: nat, pipe: nat, capacity: nat)
    requires Shaped(f, pipes) && pipe < pipes && capacity >= 2 * pipes && Answerable(f, pipe)
    requires BoundedBelow(f, before, pipes, pipe)
    ensures BoundedBelow(f, Written(before, pipe, capacity), pipes, pipe + 1)
  {
    WrittenBounded(before, pipes, pipe, capacity);
  }

  lemma {:induction false} RunBounded(pipes: nat, capacity: nat, steps: seq<Step>)
    requires capacity >= 2 * pipes
    ensures Bounded(Run(pipes, capacity, steps), pipes) && Run(pipes, capacity, steps).refused == 0
  {
    if steps == [] {
      SumSame(Run(pipes, capacity, steps).queued, 0);
    } else {
      var init := steps[..|steps| - 1];
      RunBounded(pipes, capacity, init);
      var f := Run(pipes, capacity, init);
      match steps[|steps| - 1]
      case Batch(asks, ready) =>
        AskAllBounded(f, pipes, asks);
        WriteAllBounded(AskAll(f, asks), pipes, asks, ready, capacity, pipes);
      case Flush =>
        SumSame(Do(f, Flush, capacity).queued, 0);
    }
  }

  function AllPipes(pipes: nat): (s: seq<nat>)
    ensures |s| == pipes && forall p :: 0 <= p < pipes ==> s[p] == p
  {
    if pipes == 0 then [] else AllPipes(pipes - 1) + [pipes - 1]
  }

  function PipeSet(pipes: nat): set<nat> { set p | p in AllPipes(pipes) }

  function BusyBatch(pipes: nat): Step { Batch(AllPipes(pipes), PipeSet(pipes)) }

  lemma {:induction false} AskEach(f: Fifo, pipes: nat, upTo: nat)
    requires Shaped(f, pipes) && upTo <= pipes && forall p :: 0 <= p < pipes ==> !f.offered[p]
    ensures AskedEach(f, AskAll(f, AllPipes(upTo)), upTo)
  {
    if upTo > 0 {
      AskEach(f, pipes, upTo - 1);
      assert AllPipes(upTo)[..upTo - 1] == AllPipes(upTo - 1);
      AskNext(f, AskAll(f, AllPipes(upTo - 1)), upTo - 1);
    }
  }

  /** `f'` is `f`, with nothing offered, once each pipe below `upTo` asked. */
  ghost predicate AskedEach(f: Fifo, f': Fifo, upTo: nat) {
    && f'.queued == f.queued && |f'.offered| == |f.queued|
    && forall p :: 0 <= p < |f.queued| ==> f'.offered[p] == (p < upTo && f.queued[p] > 0)
  }

  lemma {:induction false} AskNext(f: Fifo, before: Fifo, pipe: nat)
    requires pipe < |f.queued| && AskedEach(f, before, pipe)
    ensures AskedEach(f, Asked(before, pipe), pipe + 1)
  {
  }

  lemma {:induction false} WriteEach(f: Fifo, pipes: nat, capacity: nat, upTo: nat)
    requires Shaped(f, pipes) && upTo <= pipes
    ensures WroteEach(f, WriteAll(f, AllPipes(pipes), PipeSet(pipes), capacity, upTo), capacity, upTo)
  {
    if upTo > 0 {
      WriteEach(f, pipes, capacity, upTo - 1);
      assert AllPipes(pipes)[upTo - 1] == upTo - 1;
      WriteNext(f, WriteAll(f, AllPipes(pipes), PipeSet(pipes), capacity, upTo - 1), capacity, upTo - 1);
    }
  }

  /** `f'` is `f` after a write on each pipe below `upTo`, if none was refused. */
  ghost predicate WroteEach(f: Fifo, f': Fifo, capacity: nat, upTo: nat) {
    && |f'.queued| == |f.queued| && f'.offered == f.offered && f'.refused >= f.refused
    && (f'.refused == f.refused ==>
          && (forall p :: 0 <= p < |f.queued| ==> f'.queued[p] == f.queued[p] + if p < upTo then 1 else 0)
          && (upTo > 0 ==> Sum(f'.queued) <= capacity))
  }

  lemma {:induction false} WriteNext(f: Fifo, before: Fifo, capacity: nat, pipe: nat)
    requires |before.queued| == |before.offered| && pipe < |before.queued| && WroteEach(f, before, capacity, pipe)
    ensures WroteEach(f, Written(before, pipe, capacity), capacity, pipe + 1)
  {
    SumUpdate(before.queued, pipe, before.queued[pipe] + 1);
  }

  /** Two busy polls of every pipe hold two replies each, so a smaller FIFO refuses one. */
  lemma {:induction false} TwoBusyBatches(pipes: nat, capacity: nat)
    ensures Run(pipes, capacity, [BusyBatch(pipes), BusyBatch(pipes)]).refused == 0 ==> capacity >= 2 * pipes
  {
    var batch := BusyBatch(pipes);
    var f0, f1 := Run(pipes, capacity, []), Run(pipes, capacity, [batch]);
    var f2 := Run(pipes, capacity, [batch, batch]);
    assert [batch, batch][..1] == [batch] && [batch][..0] == [];
    AskEach(f0, pipes, pipes);
    WriteEach(AskAll(f0, AllPipes(pipes)), pipes, capacity, pipes);
    assert f1 == Do(f0, batch, capacity) && f2 == Do(f1, batch, capacity);
    assert forall p :: 0 <= p < pipes ==> !f1.offered[p];
    AskEach(f1, pipes, pipes);
    RefusedOnlyGrows(f1, pipes);
    WriteEach(AskAll(f1, AllPipes(pipes)), pipes, capacity, pipes);
    if pipes > 0 && f2.refused == 0 {
      SumSame(f2.queued, 2);
    }
  }

  lemma {:induction false} RefusedOnlyGrows(f: Fifo, upTo: nat)
    requires |f.queued| == |f.offered|
    ensures AskAll(f, AllPipes(upTo)).refused == f.refused
  {
    if upTo > 0 {
      assert AllPipes(upTo)[..upTo - 1] == AllPipes(upTo - 1);
      RefusedOnlyGrows(f, upTo - 1);
    }
  }

  /** Over every run no pipe holds more than two replies and the counters are the occupancy; and
      the FIFO never refuses exactly when it has room for two replies a pipe. */
  lemma {:induction false} FifoBound(pipes: nat, capacity: nat)
    ensures capacity >= 2 * pipes ==> forall steps :: Bounded(Run(pipes, capacity, steps), pipes)
    ensures (forall steps :: Run(pipes, capacity, steps).refused == 0) <==> capacity >= 2 * pipes
  {
    if capacity >= 2 * pipes {
      forall steps
        ensures Bounded(Run(pipes, capacity, steps), pipes) && Run(pipes, capacity, steps).refused == 0
      {
        RunBounded(pipes, capacity, steps);
      }
    } else {
      TwoBusyBatches(pipes, capacity);
      assert Run(pipes, capacity, [BusyBatch(pipes), BusyBatch(pipes)]).refused != 0;
    }
  }

  // ---- what a batch does to each pipe ----

  /** How often a pipe asked. */
  function Asks(asks: seq<nat>, pipe: nat): nat {
    if asks == [] then 0 else Asks(asks[..|asks| - 1], pipe) + if asks[|asks| - 1] == pipe then 1 else 0
  }

  /** Each packet that asks takes the head offered before it; the first only offers one if none was. */
  lemma {:induction false} AsksAre(f: Fifo, asks: seq<nat>, p: nat)
    requires |f.queued| == |f.offered| && p < |f.queued|
    ensures var f', k := AskAll(f, asks), Asks(asks, p);
      && f'.refused == f.refused
      && f'.queued[p] == f.queued[p] - Least(f.queued[p], if f.offered[p] || k == 0 then k else k - 1)
      && f'.offered[p] == if k == 0 then f.offered[p] else f'.queued[p] > 0
  {
    if asks != [] { AsksAre(f, asks[..|asks| - 1], p); }
  }

  function Least(a: nat, b: nat): nat { if a < b then a else b }

  /** Answers owed below `upTo`. */
  function Owed(asks: seq<nat>, ready: set<nat>, upTo: nat): nat {
    if upTo == 0 then 0 else Owed(asks, ready, upTo - 1) + if upTo - 1 in asks && upTo - 1 in ready then 1 else 0
  }

  /** From `f` to `f'` some pipes below `upTo` that asked and were ready got one reply each, no other any. */
  ghost predicate Answered(f: Fifo, f': Fifo, asks: seq<nat>, ready: set<nat>, upTo: nat) {
    && |f'.queued| == |f.queued| && f'.offered == f.offered
    && (forall p :: 0 <= p < |f.queued| ==> f.queued[p] <= f'.queued[p] <= f.queued[p] + 1)
    && (forall p :: 0 <= p < |f.queued| && f'.queued[p] > f.queued[p] ==> p < upTo && p in asks && p in ready)
  }

  lemma {:induction false} AnswerMore(f: Fifo, before: Fifo, asks: seq<nat>, ready: set<nat>, capacity: nat, pipe: nat)
    requires Answered(f, before, asks, ready, pipe) && |before.offered| == |before.queued| && pipe < |f.queued|
    ensures Answered(f, before, asks, ready, pipe + 1)
    ensures pipe in asks && pipe in ready ==>
              Answered(f, Written(before, pipe, capacity), asks, ready, pipe + 1)
  {
  }

  lemma {:induction false} AnswersAre(f: Fifo, asks: seq<nat>, ready: set<nat>, capacity: nat, upTo: nat)
    requires |f.queued| == |f.offered| && upTo <= |f.queued|
    ensures Answered(f, WriteAll(f, asks, ready, capacity, upTo), asks, ready, upTo)
  {
    if upTo > 0 {
      AnswersAre(f, asks, ready, capacity, upTo - 1);
      AnswerMore(f, WriteAll(f, asks, ready, capacity, upTo - 1), asks, ready, capacity, upTo - 1);
    }
  }

  /** From `f` to `f'` as many replies or refusals came as were `owed`, and no refusal with room for all. */
  ghost predicate Handled(f: Fifo, f': Fifo, owed: nat, capacity: nat) {
    && Sum(f'.queued) + f'.refused == Sum(f.queued) + f.refused + owed && f'.refused >= f.refused
    && (Sum(f.queued) + owed <= capacity ==> f'.refused == f.refused)
  }

  lemma {:induction false} HandledMore(f: Fifo, before: Fifo, owed: nat, capacity: nat, pipe: nat)
    requires |before.queued| == |before.offered| && pipe < |before.queued| && Handled(f, before, owed, capacity)
    ensures Handled(f, Written(before, pipe, capacity), owed + 1, capacity)
  {
    SumUpdate(before.queued, pipe, before.queued[pipe] + 1);
  }

  lemma {:induction false} OwedHandled(f: Fifo, asks: seq<nat>, ready: set<nat>, capacity: nat, upTo: nat)
    requires |f.queued| == |f.offered| && upTo <= |f.queued|
    ensures Handled(f, WriteAll(f, asks, ready, capacity, upTo), Owed(asks, ready, upTo), capacity)
  {
    if upTo > 0 {
      var before, owed := WriteAll(f, asks, ready, capacity, upTo - 1), Owed(asks, ready, upTo - 1);
      OwedHandled(f, asks, ready, capacity, upTo - 1);
      HandledMore(f, before, owed, capacity, upTo - 1);
    }
  }

  /** Each pipe that asked and has a reply ready gets one reply or a refusal, no other pipe anything, and
      with room for all of them none is refused. */
  lemma {:induction false} WritesAre(f: Fifo, asks: seq<nat>, ready: set<nat>, capacity: nat, upTo: nat)
    requires |f.queued| == |f.offered| && upTo <= |f.queued|
    ensures Answered(f, WriteAll(f, asks, ready, capacity, upTo), asks, ready, upTo)
    ensures Handled(f, WriteAll(f, asks, ready, capacity, upTo), Owed(asks, ready, upTo), capacity)
  {
    AnswersAre(f, asks, ready, capacity, upTo);
    OwedHandled(f, asks, ready, capacity, upTo);
  }
}
