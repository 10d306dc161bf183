/** What the producers put into the queue: every change ZMK went through that found room, and the
    buttons of every sync after one (src/esb_hid_relay_central.c:98-109, src/esb_hid_relay_pointer.c:86-136). */
module RelayStaged {
  import opened Common
  import opened Layout
  import opened RelayReports
  import opened RelayCentral
  import opened RelayRuns
  import opened RelayCounts
  import opened RelayControls
  import RelayButtons

  // ---- keyboard and consumer changes ----

  /** The keyboard and consumer reports among `rs`. */
  function StatesIn(rs: seq<Report>): seq<Report> {
    if rs == [] then []
    else StatesIn(rs[..|rs| - 1]) + if IsState(rs[|rs| - 1]) then [rs[|rs| - 1]] else []
  }

  lemma {:induction false} StatesAppend(a: seq<Report>, b: seq<Report>)
    ensures StatesIn(a + b) == StatesIn(a) + StatesIn(b)
  {
    if b == [] {
      assert a + b == a;
    } else {
      assert (a + b)[..|a + b| - 1] == a + b[..|b| - 1];
      StatesAppend(a, b[..|b| - 1]);
    }
  }

  lemma {:induction false} StatesOne(r: Report)
    ensures StatesIn([r]) == if IsState(r) then [r] else []
  {
    assert [r][..0] == [];
  }

  /** The queue had room at each change of a run. */
  ghost predicate RoomForChanges(setup: Setup, steps: seq<Step>) {
    forall k :: 0 <= k < |steps| && steps[k].Change? ==> |State(setup, steps[..k]).queue| < setup.depth
  }

  lemma {:induction false} ChangeStages(c: Central, step: Step)
    ensures StatesIn(Stages(c, step))
            == if step.Change? && IsState(step.report) && |c.queue| < c.depth then [step.report] else []
  {
    if Stages(c, step) != [] { StatesOne(Stages(c, step)[0]); }
  }

  /** Every change queues, in order: while the queue has room, the keyboard and consumer reports staged are
      exactly the states ZMK went through. */
  lemma {:induction false} EveryChangeStaged(setup: Setup, steps: seq<Step>)
    requires RoomForChanges(setup, steps)
    ensures StatesIn(Staged(setup, steps)) == Changes(steps)
  {
    if steps != [] {
      var init, step := steps[..|steps| - 1], steps[|steps| - 1];
      assert forall k :: 0 <= k < |init| ==> steps[..k] == init[..k];
      EveryChangeStaged(setup, init);
      StatesAppend(Staged(setup, init), Stages(State(setup, init), step));
      ChangeStages(State(setup, init), step);
      assert Changes(init) + [] == Changes(init);
    }
  }

  lemma {:induction false} SameStates(a: seq<Report>, b: seq<Report>)
    requires |a| == |b| && forall i :: 0 <= i < |a| ==> SameButTotals(a[i], b[i])
    ensures StatesIn(a) == StatesIn(b)
  {
    if a != [] { SameStates(a[..|a| - 1], b[..|b| - 1]); }
  }

  /** A tap's press and release both go out: once the pipe has drained, the keyboard and consumer reports
      written from the queue are exactly the states ZMK went through, none lost, repeated or reordered. */
  lemma {:induction false} EveryChangeWritten(setup: Setup, steps: seq<Step>, n: nat)
    requires setup.sizes.Valid() && HidRun(setup.sizes, steps) && RoomForChanges(setup, steps)
    requires n >= |State(setup, steps).queue| + 3
    ensures StatesIn(QueuedOut(Out(setup, steps + Polls(n)))) == Changes(steps)
  {
    PollsDrain(setup, steps, n);
    EveryChangeStaged(setup, steps);
    SameStates(QueuedOut(Out(setup, steps + Polls(n))), Staged(setup, steps));
  }

  // ---- buttons ----

  /** The buttons held after a run's events, and whether they changed since the last sync. */
  function HeldButtons(steps: seq<Step>): Byte {
    if steps == [] then 0
    else if steps[|steps| - 1].Button? then steps[|steps| - 1].buttons
    else HeldButtons(steps[..|steps| - 1])
  }

  predicate Unsynced(steps: seq<Step>) {
    if steps == [] || steps[|steps| - 1].Sync? then false
    else
      var init, last := steps[..|steps| - 1], steps[|steps| - 1];
      Unsynced(init) || (last.Button? && last.buttons != HeldButtons(init))
  }

  /** The button states of the syncs that had a change to report and room for it. */
  function SyncedButtons(setup: Setup, steps: seq<Step>): seq<Byte> {
    if steps == [] then []
    else
      var init := steps[..|steps| - 1];
      SyncedButtons(setup, init)
      + if steps[|steps| - 1].Sync? && Unsynced(init) && |State(setup, init).queue| < setup.depth
        then [HeldButtons(init)] else []
  }

  lemma {:induction false} ButtonMoves(c: Central, step: Step)
    requires c.pointer.Shaped() && c.relay
    ensures var p := Do(c, step).pointer;
      && p.buttons == (if step.Button? then step.buttons else c.pointer.buttons)
      && p.changed == (!step.Sync? && (c.pointer.changed || (step.Button? && step.buttons != c.pointer.buttons)))
  {
    if step.Poll? { RelayButtons.PollHolds(c, step.accepted); }
  }

  lemma {:induction false} HeldIs(setup: Setup, steps: seq<Step>)
    ensures State(setup, steps).pointer.buttons == HeldButtons(steps)
    ensures State(setup, steps).pointer.changed == Unsynced(steps)
  {
    if steps != [] {
      HeldIs(setup, steps[..|steps| - 1]);
      ButtonMoves(State(setup, steps[..|steps| - 1]), steps[|steps| - 1]);
    }
  }

  lemma {:induction false} SyncStages(c: Central, step: Step)
    requires c.pointer.Shaped()
    ensures RelayButtons.Buttons(Stages(c, step))
            == if step.Sync? && c.pointer.changed && |c.queue| < c.depth then [c.pointer.buttons] else []
  {
    RelayButtons.ButtonsNone([]);
    if Stages(c, step) != [] { RelayButtons.ButtonsOne(Stages(c, step)[0]); }
  }

  /** One button report per sync with a change: the button states staged are those held at such syncs. */
  lemma {:induction false} ButtonsStaged(setup: Setup, steps: seq<Step>)
    ensures RelayButtons.Buttons(Staged(setup, steps)) == SyncedButtons(setup, steps)
  {
    if steps != [] {
      var init, step := steps[..|steps| - 1], steps[|steps| - 1];
      ButtonsStaged(setup, init);
      HeldIs(setup, init);
      RelayButtons.ButtonsAppend(Staged(setup, init), Stages(State(setup, init), step));
      SyncStages(State(setup, init), step);
    }
  }

  // ---- the periodic refresh ----

  /** A pointer refresh was asked for and no pointer report has gone out since. */
  predicate RefreshDue(setup: Setup, steps: seq<Step>) {
    if steps == [] then false
    else
      var init, last := steps[..|steps| - 1], steps[|steps| - 1];
      last.Refresh? || (RefreshDue(setup, init) && LastMouse(WroteReports(State(setup, init), last)).None?)
  }

  lemma {:induction false} RefreshMoves(sizes: Sizes, c: Central, step: Step)
    requires sizes.Valid() && FitToPack(sizes, c)
    ensures Do(c, step).pointer.refresh
       <==> step.Refresh? || (c.pointer.refresh && LastMouse(WroteReports(c, step)).None?)
  {
    if step.Poll? { var moved, snapshot, own := PollEffect(sizes, c, step.accepted); }
  }

  /** A refresh stays due until a pointer report has been written, over every run. */
  lemma {:induction false} RefreshKept(setup: Setup, steps: seq<Step>)
    requires setup.sizes.Valid() && HidRun(setup.sizes, steps)
    ensures State(setup, steps).pointer.refresh <==> RefreshDue(setup, steps)
  {
    if steps != [] {
      var init, step := steps[..|steps| - 1], steps[|steps| - 1];
      RefreshKept(setup, init);
      AlwaysFit(setup, init);
      RefreshMoves(setup.sizes, State(setup, init), step);
    }
  }

  /** Right after the keepalive, with nothing else to write, the reply is ZMK's keyboard and consumer
      reports and a pointer report with the held buttons and the current totals. */
  lemma {:induction false} KeepaliveReply(sizes: Sizes, c: Central)
    requires sizes.Valid() && FitToPack(sizes, c) && c.control == [None, None] && c.queue == []
    ensures Wrote(Do(Do(c, Latch), Refresh), Poll(true))
            == Some(Replies([], [Keyboard(c.keyboard), Consumer(c.consumer)],
                            [Mouse(Body(c.pointer.buttons, c.pointer.Totals()))]))
  {
    var d := Do(Do(c, Latch), Refresh);
    assert FirstControlFrom(d.control, 2) == 2 && FirstControlFrom(d.control, 1) == 2;
    assert FirstControl(d) == |d.control| && IdleIsFresh(d);
    TwoLengths(Keyboard(c.keyboard), Consumer(c.consumer));
    assert d.pointer.Totals() == c.pointer.Totals();
  }
}
