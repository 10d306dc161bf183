/** The staged counter: what it says of a latched snapshot, and what a refused write leaves behind
    (src/esb_link_central.c:142-175, 290-316). */
module RelayCounts {
  import opened Common
  import opened RelayReports
  import opened RelayCentral
  import opened RelayRuns

  // ---- the HID states of a run ----

  predicate IsState(r: Report) { r.Keyboard? || r.Consumer? }

  /** Every keyboard or consumer state ZMK went through, staged or refused. */
  function Changes(steps: seq<Step>): seq<Report> {
    if steps == [] then []
    else
      var step := steps[|steps| - 1];
      Changes(steps[..|steps| - 1]) + if step.Change? && IsState(step.report) then [step.report] else []
  }

  function KeyboardAfter(setup: Setup, changes: seq<Report>): seq<Byte> {
    if changes == [] then Released(setup.sizes.keyboardLength)
    else
      var last := changes[|changes| - 1];
      if last.Keyboard? then last.rest else KeyboardAfter(setup, changes[..|changes| - 1])
  }

  function ConsumerAfter(setup: Setup, changes: seq<Report>): seq<Byte> {
    if changes == [] then Released(setup.sizes.consumerLength)
    else
      var last := changes[|changes| - 1];
      if last.Consumer? then last.rest else ConsumerAfter(setup, changes[..|changes| - 1])
  }

  /** `r`, if it is a keyboard or consumer report, is the state in force after `changes`. */
  predicate InForce(setup: Setup, changes: seq<Report>, r: Report) {
    match r
    case Keyboard(rest) => rest == KeyboardAfter(setup, changes)
    case Consumer(rest) => rest == ConsumerAfter(setup, changes)
    case _ => true
  }

  lemma {:induction false} AfterMore(setup: Setup, changes: seq<Report>, r: Report)
    ensures KeyboardAfter(setup, changes + [r]) == if r.Keyboard? then r.rest else KeyboardAfter(setup, changes)
    ensures ConsumerAfter(setup, changes + [r]) == if r.Consumer? then r.rest else ConsumerAfter(setup, changes)
  {
    assert (changes + [r])[..|changes|] == changes;
  }

  lemma {:induction false} HidIsLatest(setup: Setup, steps: seq<Step>)
    ensures State(setup, steps).keyboard == KeyboardAfter(setup, Changes(steps))
    ensures State(setup, steps).consumer == ConsumerAfter(setup, Changes(steps))
  {
    if steps != [] {
      var init, step := steps[..|steps| - 1], steps[|steps| - 1];
      HidIsLatest(setup, init);
      HidMoves(State(setup, init), step);
      if step.Change? && IsState(step.report) {
        AfterMore(setup, Changes(init), step.report);
      } else {
        assert Changes(steps) == Changes(init);
      }
    }
  }

  lemma {:induction false} StagedIsLatest(setup: Setup, steps: seq<Step>, i: nat)
    requires steps != [] && i < |Stages(State(setup, steps[..|steps| - 1]), steps[|steps| - 1])|
    ensures InForce(setup, Changes(steps), Stages(State(setup, steps[..|steps| - 1]), steps[|steps| - 1])[i])
  {
    HidIsLatest(setup, steps);
    StagedIsHeld(State(setup, steps[..|steps| - 1]), steps[|steps| - 1], i);
  }

  /** A keyboard or consumer report is staged as ZMK's own report of that moment. */
  lemma {:induction false} StagedIsHeld(c: Central, step: Step, i: nat)
    requires c.pointer.Shaped() && c.relay && i < |Stages(c, step)|
    ensures var r, d := Stages(c, step)[i], Do(c, step);
      (r.Keyboard? ==> r.rest == d.keyboard) && (r.Consumer? ==> r.rest == d.consumer)
  {
    HidMoves(c, step);
  }

  // ---- counting ----

  function Counted(setup: Setup, steps: seq<Step>): int {
    |Staged(setup, steps)| - State(setup, steps).uncounted
  }

  /** The run up to its last latch. */
  function Latched(steps: seq<Step>): (l: seq<Step>)
    ensures |l| <= |steps|
  {
    if steps == [] || steps[|steps| - 1].Latch? then steps else Latched(steps[..|steps| - 1])
  }

  lemma {:induction false} UncountedMoves(c: Central, step: Step)
    requires c.pointer.Shaped()
    ensures Do(c, step).uncounted == (if step.Increment? && c.uncounted > 0 then c.uncounted - 1
                                      else c.uncounted + |Stages(c, step)|)
    ensures Do(c, step).staged == if step.Increment? && c.uncounted > 0 then (c.staged + 1) % COUNTER_TURN else c.staged
  {
  }

  lemma {:induction false} CountedMoves(setup: Setup, steps: seq<Step>)
    requires steps != []
    ensures var init := steps[..|steps| - 1];
      && |Staged(setup, init)| <= |Staged(setup, steps)|
      && Counted(setup, init) <= Counted(setup, steps) <= Counted(setup, init) + 1
      && State(setup, steps).staged == (if Counted(setup, steps) == Counted(setup, init) then State(setup, init).staged
                                        else (State(setup, init).staged + 1) % COUNTER_TURN)
  {
    UncountedMoves(State(setup, steps[..|steps| - 1]), steps[|steps| - 1]);
  }

  lemma {:induction false} CountOn(before: nat, after: nat, was: nat, now: nat)
    requires was == before % COUNTER_TURN && before <= after <= before + 1
    requires now == if after == before then was else (was + 1) % COUNTER_TURN
    ensures now == after % COUNTER_TURN
  {
  }

  /** The 32-bit counter counts the queue's accepted reports, but for those still to be counted. */
  lemma {:induction false} CounterIs(setup: Setup, steps: seq<Step>)
    ensures 0 <= Counted(setup, steps) && State(setup, steps).staged == Counted(setup, steps) % COUNTER_TURN
  {
    if steps != [] {
      var init := steps[..|steps| - 1];
      CounterIs(setup, init);
      CountedMoves(setup, steps);
      CountOn(Counted(setup, init), Counted(setup, steps), State(setup, init).staged, State(setup, steps).staged);
    }
  }

  /** The snapshot is the state at the last latch, tagged with the counter of that moment. */
  lemma {:induction false} SnapshotIs(setup: Setup, steps: seq<Step>)
    ensures |Staged(setup, Latched(steps))| <= |Staged(setup, steps)|
    ensures Counted(setup, Latched(steps)) <= Counted(setup, steps) && |Changes(Latched(steps))| <= |Changes(steps)|
    ensures Changes(Latched(steps)) == Changes(steps)[..|Changes(Latched(steps))|]
    ensures var idle, when := State(setup, steps).idle, Latched(steps);
      idle.Some?
      ==> idle.value == Idle([Keyboard(KeyboardAfter(setup, Changes(when))),
                              Consumer(ConsumerAfter(setup, Changes(when)))], State(setup, when).staged)
  {
    if steps != [] {
      var init, step := steps[..|steps| - 1], steps[|steps| - 1];
      IdleMoves(State(setup, init), step);
      if step.Latch? {
        HidIsLatest(setup, init);
        UncountedMoves(State(setup, init), step);
      } else {
        SnapshotIs(setup, init);
        CountedMoves(setup, steps);
      }
    }
  }

  lemma {:induction false} SnapshotAtLatch(setup: Setup, steps: seq<Step>)
    ensures var idle, latched := State(setup, steps).idle, State(setup, Latched(steps));
      idle.Some? ==> idle.value.reports == [Keyboard(latched.keyboard), Consumer(latched.consumer)]
  {
    SnapshotIs(setup, steps);
    HidIsLatest(setup, Latched(steps));
  }

  lemma {:induction false} TagIs(setup: Setup, steps: seq<Step>)
    ensures 0 <= Counted(setup, Latched(steps)) <= Counted(setup, steps)
    ensures State(setup, steps).idle.Some?
            ==> State(setup, steps).idle.value.staged == Counted(setup, Latched(steps)) % COUNTER_TURN
  {
    SnapshotIs(setup, steps);
    CounterIs(setup, Latched(steps));
  }

  lemma {:induction false} SameTurn(a: nat, b: nat)
    requires b <= a && a % COUNTER_TURN == b % COUNTER_TURN
    ensures a - b < COUNTER_TURN ==> a == b
  {
  }

  lemma {:induction false} SameResidue(a: nat, b: nat)
    ensures a % COUNTER_TURN == b % COUNTER_TURN <==> (a - b) % COUNTER_TURN == 0
  {
  }

  /** The staleness test compares counts to within whole turns of the counter. */
  lemma {:induction false} FreshIff(setup: Setup, steps: seq<Step>)
    requires State(setup, steps).idle.Some?
    ensures IdleIsFresh(State(setup, steps))
            <==> (Counted(setup, steps) - Counted(setup, Latched(steps))) % COUNTER_TURN == 0
  {
    var now, latched := TagsAre(setup, steps);
    SameTag(State(setup, steps), now, latched);
  }

  /** The counter and the snapshot's tag are these counts, mod 2^32. */
  predicate Tagged(c: Central, now: int, latched: int) {
    && 0 <= latched <= now && c.staged == now % COUNTER_TURN
    && (c.idle.Some? ==> c.idle.value.staged == latched % COUNTER_TURN)
  }

  lemma {:induction false} TagsAre(setup: Setup, steps: seq<Step>) returns (now: int, latched: int)
    ensures now == Counted(setup, steps) && latched == Counted(setup, Latched(steps))
    ensures Tagged(State(setup, steps), now, latched)
  {
    now, latched := Counted(setup, steps), Counted(setup, Latched(steps));
    TagIs(setup, steps);
    CounterIs(setup, steps);
  }

  lemma {:induction false} SameTag(c: Central, now: int, latched: int)
    requires c.idle.Some? && Tagged(c, now, latched)
    ensures IdleIsFresh(c) <==> (now - latched) % COUNTER_TURN == 0
  {
    SameResidue(now, latched);
  }

  // ---- refused writes ----

  /** Fewer counts since the latch than the counter has values. */
  predicate WithinTurn(setup: Setup, steps: seq<Step>) {
    Counted(setup, steps) - Counted(setup, Latched(steps)) < COUNTER_TURN
  }

  lemma {:induction false} PackedIgnoresIdle(c: Central, n: nat)
    requires c.pointer.Shaped() && n <= |c.queue|
    ensures Packed(c.(idle := None), n) == Packed(c, n)
  {
    var d := c.(idle := None);
    forall i | 0 <= i < n ensures Packed(d, n)[i] == Packed(c, n)[i] { assert d.queue[i] == c.queue[i]; }
  }

  lemma {:induction false} PayloadsIgnoreStale(c: Central)
    requires c.pointer.Shaped() && !IdleIsFresh(c)
    ensures var d := c.(idle := None);
      && Count(d) == Count(c) && QueuedPayload(d) == QueuedPayload(c) && IdlePayload(d) == IdlePayload(c)
  {
    PackedIgnoresIdle(c, Count(c));
  }

  /** A stale snapshot is as good as none. */
  lemma {:induction false} StaleIgnored(c: Central, step: Step)
    requires c.pointer.Shaped() && c.relay && !IdleIsFresh(c)
    ensures var d := c.(idle := None);
      && Wrote(d, step) == Wrote(c, step)
      && Do(d, step).(idle := None) == Do(c, step).(idle := None)
      && (if step.Latch? then Do(d, step) == Do(c, step)
        else Do(d, step).idle == None && Do(c, step).idle in {None, c.idle})
  {
    if step.Poll? { PollIgnoresStale(c, step.accepted); }
  }

  lemma {:induction false} PollIgnoresStale(c: Central, accepted: bool)
    requires c.pointer.Shaped() && !IdleIsFresh(c)
    ensures var r, q := PollOnce(c, accepted), PollOnce(c.(idle := None), accepted);
      q.1 == r.1 && q.0.(idle := None) == r.0.(idle := None) && q.0.idle == None && r.0.idle in {None, c.idle}
  {
    PayloadsIgnoreStale(c);
    assert FirstControl(c.(idle := None)) == FirstControl(c);
  }

  /** `c` is the state after `steps`, but that a stale snapshot may be gone from it. */
  ghost predicate AsIf(setup: Setup, steps: seq<Step>, c: Central) {
    var d := State(setup, steps);
    c == d || (c == d.(idle := None) && d.idle.Some? && Counted(setup, steps) != Counted(setup, Latched(steps)))
  }

  lemma {:induction false} StaleWithinTurn(setup: Setup, steps: seq<Step>)
    requires State(setup, steps).idle.Some? && WithinTurn(setup, steps)
    ensures IdleIsFresh(State(setup, steps)) <==> Counted(setup, steps) == Counted(setup, Latched(steps))
  {
    FreshIff(setup, steps);
    TagIs(setup, steps);
    SmallResidue(Counted(setup, steps) - Counted(setup, Latched(steps)));
  }

  lemma {:induction false} SmallResidue(x: nat)
    requires x < COUNTER_TURN
    ensures x % COUNTER_TURN == 0 <==> x == 0
  {
  }

  lemma {:induction false} AsIfStep(setup: Setup, steps: seq<Step>, c: Central, step: Step)
    requires AsIf(setup, steps, c) && WithinTurn(setup, steps)
    ensures c.pointer.Shaped() && Wrote(c, step) == Wrote(State(setup, steps), step)
    ensures AsIf(setup, steps + [step], Do(c, step))
  {
    var d, after := State(setup, steps), steps + [step];
    assert after[..|steps|] == steps;
    if c != d {
      StaleWithinTurn(setup, steps);
      StaleIgnored(d, step);
      CountedMoves(setup, after);
      TagIs(setup, steps);
    }
  }

  lemma {:induction false} RefusedPoll(setup: Setup, steps: seq<Step>)
    requires WithinTurn(setup, steps)
    ensures Out(setup, steps + [Poll(false)]) == Out(setup, steps)
    ensures AsIf(setup, steps, State(setup, steps + [Poll(false)]))
  {
    RunSnoc(setup, steps, Poll(false));
    RefusedChangesNothing(State(setup, steps));
    if State(setup, steps).idle.Some? { StaleWithinTurn(setup, steps); }
  }

  /** A refused write leaves no trace: within one turn of the counter, every run writes what it would
      have written without the poll that was refused, and ends in the same queue, controls and pointer,
      with at most a stale snapshot gone. */
  lemma {:induction false} RefusedLeavesNoTrace(setup: Setup, a: seq<Step>, b: seq<Step>)
    requires forall k :: |a| <= k <= |a + b| ==> WithinTurn(setup, (a + b)[..k])
    ensures Out(setup, a + [Poll(false)] + b) == Out(setup, a + b)
    ensures AsIf(setup, a + b, State(setup, a + [Poll(false)] + b))
    decreases |b|
  {
    if b == [] {
      assert a + b == a == (a + b)[..|a|] && a + [Poll(false)] + b == a + [Poll(false)];
      RefusedPoll(setup, a);
    } else {
      var init, step := b[..|b| - 1], b[|b| - 1];
      forall k | |a| <= k <= |a + init| ensures WithinTurn(setup, (a + init)[..k]) {
        assert (a + init)[..k] == (a + b)[..k];
      }
      RefusedLeavesNoTrace(setup, a, init);
      assert (a + b)[..|a + init|] == a + init;
      Snoc(a, b);
      Snoc(a + [Poll(false)], b);
      NoTraceStep(setup, a + init, a + [Poll(false)] + init, step);
    }
  }

  lemma {:induction false} NoTraceStep(setup: Setup, s: seq<Step>, t: seq<Step>, step: Step)
    requires WithinTurn(setup, s) && Out(setup, t) == Out(setup, s) && AsIf(setup, s, State(setup, t))
    ensures Out(setup, t + [step]) == Out(setup, s + [step]) && AsIf(setup, s + [step], State(setup, t + [step]))
  {
    AsIfStep(setup, s, State(setup, t), step);
    RunSnoc(setup, s, step);
    RunSnoc(setup, t, step);
  }

  // ---- when a snapshot is written ----

  /** A poll has fallen between a put and its count, which is still to come. */
  predicate PolledUncounted(setup: Setup, steps: seq<Step>) {
    exists k :: 0 <= k < |steps| && steps[k].Poll? && Counted(setup, steps) < |Staged(setup, steps[..k])|
  }

  /** Whatever was staged since the last poll is still queued. */
  lemma {:induction false} SinceLastPoll(setup: Setup, steps: seq<Step>) returns (k: int)
    ensures -1 <= k < |steps| && (k >= 0 ==> steps[k].Poll?)
    ensures var before := if k < 0 then 0 else |Staged(setup, steps[..k])|;
      |Staged(setup, steps)| <= |State(setup, steps).queue| + before
  {
    k := -1;
    if steps != [] {
      var init, step := steps[..|steps| - 1], steps[|steps| - 1];
      if step.Poll? {
        k := |init|;
      } else {
        k := SinceLastPoll(setup, init);
        QueueMoves(State(setup, init), step);
        if k >= 0 { assert init[..k] == steps[..k]; }
      }
    }
  }

  /** As many reports still to be counted as there were at the latch. */
  predicate CountsSettled(setup: Setup, steps: seq<Step>) {
    State(setup, steps).uncounted == State(setup, Latched(steps)).uncounted
  }

  lemma {:induction false} FreshCounts(setup: Setup, steps: seq<Step>)
    requires IdleIsFresh(State(setup, steps)) && WithinTurn(setup, steps)
    ensures Counted(setup, steps) == Counted(setup, Latched(steps))
  {
    TagIs(setup, steps);
    CounterIs(setup, steps);
    SameTurn(Counted(setup, steps), Counted(setup, Latched(steps)));
  }

  /** What the staleness test cannot see: a fresh snapshot is of the current state exactly when as many
      reports await their count as when it was latched. */
  lemma {:induction false} FreshUnchangedIff(setup: Setup, steps: seq<Step>)
    requires IdleIsFresh(State(setup, steps)) && WithinTurn(setup, steps)
    ensures Staged(setup, Latched(steps)) == Staged(setup, steps) <==> CountsSettled(setup, steps)
  {
    FreshCounts(setup, steps);
    StagedSince(setup, steps);
  }

  /** So, with nothing queued, a snapshot goes out behind a report newer than it exactly when not. */
  lemma {:induction false} BehindNewerIff(setup: Setup, steps: seq<Step>)
    requires IdleIsFresh(State(setup, steps)) && WithinTurn(setup, steps) && State(setup, steps).queue == []
    ensures |QueuedOut(Out(setup, steps))| > |Staged(setup, Latched(steps))| <==> !CountsSettled(setup, steps)
  {
    FreshUnchangedIff(setup, steps);
    StagedSince(setup, steps);
    ExactlyOnceInOrder(setup, steps);
  }

  /** At most one poll between a put and its count is enough. */
  lemma {:induction false} OnePollSettles(setup: Setup, steps: seq<Step>)
    requires IdleIsFresh(State(setup, steps)) && WithinTurn(setup, steps) && State(setup, steps).queue == []
    requires !PolledUncounted(setup, steps)
    ensures CountsSettled(setup, steps)
  {
    var k := SinceLastPoll(setup, steps);
    CounterIs(setup, steps);
    FreshCounts(setup, steps);
    StagedSince(setup, steps);
  }

  lemma {:induction false} StagedSince(setup: Setup, steps: seq<Step>)
    ensures Staged(setup, Latched(steps)) <= Staged(setup, steps)
  {
    if steps != [] && !steps[|steps| - 1].Latch? { StagedSince(setup, steps[..|steps| - 1]); }
  }
}
