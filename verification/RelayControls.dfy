/** Control messages on a pipe, and what a run of accepted polls drains
    (src/esb_link_central.c:123-140, src/esb_link_central.c:195-334). */
module RelayControls {
  import opened Common
  import opened Layout
  import opened RelayReports
  import opened RelayCentral
  import opened RelayRuns
  import opened RelayCounts

  // ---- one poll ----

  ghost predicate Pair(c: Central) { c.pointer.Shaped() && c.relay && |c.control| == 2 }

  /** What an accepted poll does with the latches: it writes the first one latched and frees that one
      alone, touching nothing else; with none latched it writes no control. */
  lemma {:induction false} PollControls(c: Central)
    requires Pair(c)
    ensures var d, w := Do(c, Poll(true)), Wrote(c, Poll(true));
      if c.control[0].Some? then d == c.(control := [None, c.control[1]]) && w == Some(Control(c.control[0].value))
      else if c.control[1].Some? then d == c.(control := [None, None]) && w == Some(Control(c.control[1].value))
      else d.control == c.control && (w.Some? ==> w.value.Replies?)
  {
    assert c.control == [c.control[0], c.control[1]];
    assert FirstControlFrom(c.control, 2) == 2;
    if c.control[0].None? {
      assert FirstControlFrom(c.control, 0) == FirstControlFrom(c.control, 1);
    }
  }

  /** A step that is not an accepted poll leaves the latches, but for the one it latches. */
  lemma {:induction false} OtherControls(c: Central, step: Step)
    requires Pair(c) && step != Poll(true)
    ensures Do(c, step).control == (if step.LatchControl? && step.kind < 2 then c.control[step.kind := Some(step.bytes)]
                                    else c.control)
    ensures Wrote(c, step).None?
  {
  }

  lemma {:induction false} AlwaysPair(setup: Setup, steps: seq<Step>)
    ensures Pair(State(setup, steps))
  {
    if steps != [] {
      var c, step := State(setup, steps[..|steps| - 1]), steps[|steps| - 1];
      AlwaysPair(setup, steps[..|steps| - 1]);
      if step == Poll(true) { PollControls(c); } else { OtherControls(c, step); }
    }
  }

  // ---- over runs ----

  /** The messages latched for a kind, in order. */
  function Latches(steps: seq<Step>, kind: nat): seq<seq<Byte>> {
    if steps == [] then []
    else
      var step := steps[|steps| - 1];
      Latches(steps[..|steps| - 1], kind) + if step.LatchControl? && step.kind == kind then [step.bytes] else []
  }

  /** The control messages the FIFO took, in order. */
  function ControlsOut(out: seq<Written>): seq<seq<Byte>> {
    if out == [] then []
    else
      var last := out[|out| - 1];
      ControlsOut(out[..|out| - 1]) + if last.Control? then [last.bytes] else []
  }

  /** A message written: the `index`-th latched of its kind. */
  datatype Sent = Sent(kind: nat, index: nat)

  /** `log` says of each control message written which one it was. */
  ghost predicate Logged(steps: seq<Step>, log: seq<Sent>, written: seq<seq<Byte>>) {
    && |log| == |written|
    && forall i :: 0 <= i < |log| ==>
         && log[i].kind < 2 && log[i].index < |Latches(steps, log[i].kind)|
         && written[i] == Latches(steps, log[i].kind)[log[i].index]
  }

  /** Newer messages of a kind go out after older ones, and none twice. */
  ghost predicate Ordered(log: seq<Sent>) {
    forall i, j :: 0 <= i < j < |log| && log[i].kind == log[j].kind ==> log[i].index < log[j].index
  }

  /** A latch holds the newest message of its kind, unless that one has been written. */
  ghost predicate Holds(latches: seq<seq<Byte>>, kind: nat, log: seq<Sent>, slot: Option<seq<Byte>>) {
    slot == if latches == [] || Sent(kind, |latches| - 1) in log then None else Some(latches[|latches| - 1])
  }

  ghost predicate KeptAt(steps: seq<Step>, log: seq<Sent>, written: seq<seq<Byte>>, control: seq<Option<seq<Byte>>>) {
    && |control| == 2 && Logged(steps, log, written) && Ordered(log)
    && Holds(Latches(steps, 0), 0, log, control[0]) && Holds(Latches(steps, 1), 1, log, control[1])
  }

  ghost predicate ControlsKept(setup: Setup, steps: seq<Step>, log: seq<Sent>) {
    KeptAt(steps, log, ControlsOut(Out(setup, steps)), State(setup, steps).control)
  }

  lemma {:induction false} LatchesMore(steps: seq<Step>, step: Step, kind: nat)
    ensures Latches(steps + [step], kind)
            == Latches(steps, kind) + if step.LatchControl? && step.kind == kind then [step.bytes] else []
  {
    assert (steps + [step])[..|steps|] == steps;
  }

  lemma {:induction false} ControlsMore(out: seq<Written>, w: Written)
    ensures ControlsOut(out + [w]) == ControlsOut(out) + if w.Control? then [w.bytes] else []
  {
    assert (out + [w])[..|out|] == out;
  }

  lemma {:induction false} LoggedMore(steps: seq<Step>, step: Step, log: seq<Sent>, written: seq<seq<Byte>>)
    requires Logged(steps, log, written)
    ensures Logged(steps + [step], log, written)
  {
    forall i | 0 <= i < |log|
      ensures log[i].index < |Latches(steps + [step], log[i].kind)|
      ensures written[i] == Latches(steps + [step], log[i].kind)[log[i].index]
    {
      LatchesMore(steps, step, log[i].kind);
    }
  }

  lemma {:induction false} HoldsLatched(latches: seq<seq<Byte>>, kind: nat, steps: seq<Step>, log: seq<Sent>,
                                        written: seq<seq<Byte>>, bytes: seq<Byte>)
    requires Logged(steps, log, written) && latches == Latches(steps, kind)
    ensures Holds(latches + [bytes], kind, log, Some(bytes))
  {
    assert Sent(kind, |latches|) !in log;
  }

  /** The message of kind `kind` goes out: it is the newest, and was not written before. */
  lemma {:induction false} HoldsSent(steps: seq<Step>, log: seq<Sent>, written: seq<seq<Byte>>, kind: nat,
                                     bytes: seq<Byte>)
    requires kind < 2 && Logged(steps, log, written) && Ordered(log)
    requires Holds(Latches(steps, kind), kind, log, Some(bytes))
    ensures var sent := Sent(kind, |Latches(steps, kind)| - 1);
      && Logged(steps, log + [sent], written + [bytes]) && Ordered(log + [sent])
      && Holds(Latches(steps, kind), kind, log + [sent], None)
      && forall latches, other: nat, slot :: other != kind && Holds(latches, other, log, slot)
           ==> Holds(latches, other, log + [sent], slot)
  {
  }

  lemma {:induction false} StepKept(steps: seq<Step>, step: Step, log: seq<Sent>, written: seq<seq<Byte>>,
                                    control: seq<Option<seq<Byte>>>)
    requires KeptAt(steps, log, written, control)
    ensures KeptAt(steps + [step], log, written, if step.LatchControl? && step.kind < 2
                                                 then control[step.kind := Some(step.bytes)] else control)
  {
    LatchesMore(steps, step, 0);
    LatchesMore(steps, step, 1);
    LoggedMore(steps, step, log, written);
    assert Latches(steps, 0) + [] == Latches(steps, 0) && Latches(steps, 1) + [] == Latches(steps, 1);
    if step.LatchControl? && step.kind < 2 {
      HoldsLatched(Latches(steps, step.kind), step.kind, steps, log, written, step.bytes);
    }
  }

  lemma {:induction false} SentKept(steps: seq<Step>, log: seq<Sent>, written: seq<seq<Byte>>,
                                    control: seq<Option<seq<Byte>>>, kind: nat)
    requires KeptAt(steps, log, written, control) && kind < 2 && control[kind].Some?
    ensures KeptAt(steps, log + [Sent(kind, |Latches(steps, kind)| - 1)], written + [control[kind].value],
                   control[kind := None])
  {
    HoldsSent(steps, log, written, kind, control[kind].value);
  }

  /** What an accepted poll frees and writes is one message of the log. */
  lemma {:induction false} PollKept(steps: seq<Step>, log: seq<Sent>, out: seq<Written>, c: Central)
    returns (log': seq<Sent>)
    requires Pair(c) && KeptAt(steps, log, ControlsOut(out), c.control)
    ensures var w := Wrote(c, Poll(true));
      KeptAt(steps, log', ControlsOut(if w.Some? then out + [w.value] else out), Do(c, Poll(true)).control)
  {
    PollControls(c);
    log' := WrittenKept(steps, log, out, c.control, Do(c, Poll(true)).control, Wrote(c, Poll(true)));
  }

  lemma {:induction false} WrittenKept(steps: seq<Step>, log: seq<Sent>, out: seq<Written>,
                                       control: seq<Option<seq<Byte>>>, after: seq<Option<seq<Byte>>>,
                                       w: Option<Written>)
    returns (log': seq<Sent>)
    requires KeptAt(steps, log, ControlsOut(out), control)
    requires if control[0].Some? then after == [None, control[1]] && w == Some(Control(control[0].value))
             else if control[1].Some? then after == [None, None] && w == Some(Control(control[1].value))
             else after == control && (w.Some? ==> w.value.Replies?)
    ensures KeptAt(steps, log', ControlsOut(if w.Some? then out + [w.value] else out), after)
  {
    var written := ControlsOut(out);
    if w.Some? { ControlsMore(out, w.value); }
    var kind := if control[0].Some? then 0 else 1;
    log' := log;
    if control[kind].Some? {
      SentKept(steps, log, written, control, kind);
      assert control[kind := None] == after;
      log' := log + [Sent(kind, |Latches(steps, kind)| - 1)];
    } else {
      assert written + [] == written;
    }
  }

  lemma {:induction false} ControlStep(setup: Setup, init: seq<Step>, step: Step, log: seq<Sent>)
    returns (log': seq<Sent>)
    requires ControlsKept(setup, init, log)
    ensures ControlsKept(setup, init + [step], log')
  {
    RunSnoc(setup, init, step);
    AlwaysPair(setup, init);
    StepKept(init, step, log, ControlsOut(Out(setup, init)), State(setup, init).control);
    log' := log;
    if step == Poll(true) {
      log' := PollKept(init + [step], log, Out(setup, init), State(setup, init));
    } else {
      OtherControls(State(setup, init), step);
    }
  }

  /** Over every run of latches and polls: each control message written is one that was latched, none is
      written twice, newer ones of a kind follow older ones, and a latch holds just the newest message of
      its kind for as long as that is not written. */
  lemma {:induction false} ControlsOnce(setup: Setup, steps: seq<Step>) returns (log: seq<Sent>)
    ensures ControlsKept(setup, steps, log)
  {
    if steps == [] {
      log := [];
      NothingSent(setup);
    } else {
      log := ControlsOnce(setup, steps[..|steps| - 1]);
      log := ControlStep(setup, steps[..|steps| - 1], steps[|steps| - 1], log);
      assert steps[..|steps| - 1] + [steps[|steps| - 1]] == steps;
    }
  }

  lemma {:induction false} NothingSent(setup: Setup)
    ensures ControlsKept(setup, [], [])
  {
    assert Latches([], 0) == [] && Latches([], 1) == [] && ControlsOut([]) == [];
  }

  // ---- what accepted polls drain ----

  function Latched(control: seq<Option<seq<Byte>>>): nat
    requires |control| == 2
  {
    (if control[0].Some? then 1 else 0) + if control[1].Some? then 1 else 0
  }

  /** Nothing is left to write: no control, no report, no snapshot, and the dongle has the pointer. */
  predicate Settled(c: Central) {
    && c.control == [None, None] && c.queue == [] && c.idle.None? && c.pointer.Shaped()
    && !c.pointer.refresh && c.pointer.written == Body(c.pointer.buttons, c.pointer.Totals())
  }

  /** And then a poll writes nothing and changes nothing. */
  lemma {:induction false} SettledQuiet(c: Central, accepted: bool)
    requires Settled(c) && c.relay
    ensures Wrote(c, Poll(accepted)).None? && Do(c, Poll(accepted)) == c
  {
    assert FirstControlFrom(c.control, 2) == 2 && FirstControlFrom(c.control, 1) == 2;
    assert FirstControl(c) == 2;
    assert c.pointer.Take(MAX_PAYLOAD, false) == [];
    assert TotalLength([]) == 0;
  }

  /** With no control and nothing queued, one accepted poll settles the pipe. */
  lemma {:induction false} IdleSettles(sizes: Sizes, c: Central)
    requires sizes.Valid() && FitToPack(sizes, c) && c.control == [None, None] && c.queue == []
    ensures Settled(Do(c, Poll(true))) && Do(c, Poll(true)).staged == c.staged
  {
    assert FirstControlFrom(c.control, 2) == 2 && FirstControlFrom(c.control, 1) == 2;
    assert FirstControl(c) == |c.control|;
    PollControlsNone(c);
    IdlePoll(sizes, c);
    OwnSettles(sizes, c);
  }

  lemma {:induction false} PollControlsNone(c: Central)
    requires c.pointer.Shaped() && c.control == [None, None] && c.relay
    ensures Do(c, Poll(true)).control == [None, None] && Do(c, Poll(true)).staged == c.staged
  {
    assert Pair(c);
    PollControls(c);
    PollStaged(c);
  }

  lemma {:induction false} PollStaged(c: Central)
    requires c.pointer.Shaped()
    ensures Do(c, Poll(true)).staged == c.staged
  {
  }

  lemma {:induction false} OwnSettles(sizes: Sizes, c: Central)
    requires sizes.Valid() && FitToPack(sizes, c)
    ensures var p := c.pointer.Sent(IdlePayload(c).pointer);
      !p.refresh && p.Shaped() && p.written == Body(p.buttons, p.Totals())
  {
    IdleFits(sizes, c);
    var own := IdlePayload(c).pointer;
    if own != [] { assert own == [own[0]] && [own[0]][..0] == []; }
  }

  /** A queued reply leaves with every accepted poll that has no control to write. */
  lemma {:induction false} QueueShrinks(sizes: Sizes, c: Central)
    requires sizes.Valid() && FitToPack(sizes, c) && c.control == [None, None] && c.queue != []
    ensures |Do(c, Poll(true)).queue| < |c.queue| && Do(c, Poll(true)).control == [None, None]
  {
    assert FirstControlFrom(c.control, 2) == 2 && FirstControlFrom(c.control, 1) == 2;
    HeadFits(sizes, c);
    QueuedLeft(c);
    PollControlsNone(c);
  }

  function Polls(n: nat): (steps: seq<Step>)
    ensures |steps| == n && forall i :: 0 <= i < n ==> steps[i] == Poll(true)
  {
    Repeat(n, Poll(true))
  }

  /** How many accepted polls a state has left to settle. */
  function Work(c: Central): nat
    requires |c.control| == 2
  {
    if Settled(c) then 0 else Latched(c.control) + |c.queue| + 1
  }

  lemma {:induction false} PollWorks(sizes: Sizes, c: Central)
    requires sizes.Valid() && FitToPack(sizes, c) && |c.control| == 2
    ensures var d := Do(c, Poll(true)); |d.control| == 2 && if Settled(c) then d == c else Work(d) < Work(c)
  {
    assert c.control == [c.control[0], c.control[1]];
    PollControls(c);
    if Settled(c) {
      SettledQuiet(c, true);
    } else if c.control == [None, None] {
      if c.queue == [] { IdleSettles(sizes, c); } else { QueueShrinks(sizes, c); }
    }
  }

  function PollMany(c: Central, n: nat): (d: Central)
    requires c.pointer.Shaped()
    ensures d.pointer.Shaped() && d.relay == c.relay
  {
    if n == 0 then c else Do(PollMany(c, n - 1), Poll(true))
  }

  lemma {:induction false} WorkEnds(sizes: Sizes, c: Central, n: nat)
    requires sizes.Valid() && FitToPack(sizes, c) && |c.control| == 2
    ensures var d := PollMany(c, n); FitToPack(sizes, d) && |d.control| == 2 && Work(d) <= Max(Work(c) - n, 0)
  {
    if n > 0 {
      WorkEnds(sizes, c, n - 1);
      WorkLess(sizes, PollMany(c, n - 1), Work(c) - (n - 1));
    }
  }

  lemma {:induction false} WorkLess(sizes: Sizes, c: Central, left: int)
    requires sizes.Valid() && FitToPack(sizes, c) && |c.control| == 2 && Work(c) <= Max(left, 0)
    ensures var d := Do(c, Poll(true)); FitToPack(sizes, d) && |d.control| == 2 && Work(d) <= Max(left - 1, 0)
  {
    PollWorks(sizes, c);
    StepStaysFit(sizes, c, Poll(true));
  }

  function Max(a: int, b: int): int { if a < b then b else a }

  lemma {:induction false} ManyPolls(setup: Setup, steps: seq<Step>, n: nat)
    ensures State(setup, steps + Polls(n)) == PollMany(State(setup, steps), n)
    ensures Staged(setup, steps + Polls(n)) == Staged(setup, steps)
  {
    if n == 0 {
      assert steps + Polls(0) == steps;
    } else {
      ManyPolls(setup, steps, n - 1);
      OnePoll(setup, steps + Polls(n - 1));
      LastPoll(steps, n);
    }
  }

  lemma {:induction false} LastPoll(steps: seq<Step>, n: nat)
    requires n > 0
    ensures steps + Polls(n) == (steps + Polls(n - 1)) + [Poll(true)]
  {
    assert Polls(n) == Polls(n - 1) + [Poll(true)];
  }

  lemma {:induction false} OnePoll(setup: Setup, steps: seq<Step>)
    ensures State(setup, steps + [Poll(true)]) == Do(State(setup, steps), Poll(true))
    ensures Staged(setup, steps + [Poll(true)]) == Staged(setup, steps)
  {
    RunSnoc(setup, steps, Poll(true));
    assert Staged(setup, steps) + [] == Staged(setup, steps);
  }

  /** Everything staged has been written, in order and once. */
  ghost predicate AllWritten(written: seq<Report>, staged: seq<Report>) {
    |written| == |staged| && Prefix(written, staged)
  }

  lemma {:induction false} EmptyQueue(setup: Setup, steps: seq<Step>)
    requires State(setup, steps).queue == []
    ensures AllWritten(QueuedOut(Out(setup, steps)), Staged(setup, steps))
  {
    ExactlyOnceInOrder(setup, steps);
  }

  /** No starvation, controls or not: from every reachable state, accepted polls without new work settle
      the pipe within one poll a latched control, one a queued report, and one more; by then every staged
      report has been written, in order and once, and from then on polls write nothing. */
  lemma {:induction false} PollsDrain(setup: Setup, steps: seq<Step>, n: nat)
    requires setup.sizes.Valid() && HidRun(setup.sizes, steps)
    requires n >= |State(setup, steps).queue| + 3
    ensures var all := steps + Polls(n);
      && Settled(State(setup, all)) && Staged(setup, all) == Staged(setup, steps)
      && AllWritten(QueuedOut(Out(setup, all)), Staged(setup, steps))
      && Wrote(State(setup, all), Poll(true)).None?
  {
    AlwaysFit(setup, steps);
    AlwaysPair(setup, steps);
    ManyPolls(setup, steps, n);
    ManySettle(setup.sizes, State(setup, steps), n);
    EmptyQueue(setup, steps + Polls(n));
  }

  lemma {:induction false} ManySettle(sizes: Sizes, c: Central, n: nat)
    requires sizes.Valid() && FitToPack(sizes, c) && |c.control| == 2 && n >= |c.queue| + 3
    ensures var d := PollMany(c, n); Settled(d) && Wrote(d, Poll(true)).None?
  {
    WorkEnds(sizes, c, n);
    SettledQuiet(PollMany(c, n), true);
  }

  // ---- a pipe that is not a relay ----

  /** It latches no snapshot, and an accepted poll with no control to write sends the first command queued
      as it is, alone, and leaves the pointer. */
  lemma {:induction false} CommandPoll(c: Central)
    requires c.pointer.Shaped() && !c.relay && c.control == [None, None]
    requires c.queue != [] && Length(c.queue[0]) <= MAX_PAYLOAD
    ensures Do(c, Latch) == c
    ensures Wrote(c, Poll(true)) == Some(Replies([c.queue[0]], [], []))
    ensures Do(c, Poll(true)) == c.(queue := c.queue[1..])
  {
    assert FirstControlFrom(c.control, 2) == 2 && FirstControlFrom(c.control, 1) == 2;
    assert FirstControl(c) == 2;
    CountIsMost(c);
    assert Packed(c, 1) == [c.queue[0]];
  }
}
