/** Whole runs of the central's relay pipe: order, exactly-once, no overtaking, no regress. */
module RelayRuns {
  import opened Common
  import opened RelayReports
  import opened RelayCentral

  datatype Setup = Setup(sizes: Sizes, depth: nat)

  function Start(setup: Setup): (c: Central)
    ensures c.pointer.Shaped()
  {
    Central(true, setup.depth, [], 0, 0, None, [None, None], Released(setup.sizes.keyboardLength),
            Released(setup.sizes.consumerLength),
            Pointer([0, 0, 0, 0], 0, false, false, Body(0, [0, 0, 0, 0])))
  }

  /** A report body of zeros, one byte short of `length` for its id. */
  function Released(length: nat): seq<Byte> {
    Repeat(if length == 0 then 0 else length - 1, 0)
  }

  function State(setup: Setup, steps: seq<Step>): (c: Central)
    ensures c.pointer.Shaped() && c.relay && c.depth == setup.depth
  {
    if steps == [] then Start(setup) else Do(State(setup, steps[..|steps| - 1]), steps[|steps| - 1])
  }

  /** Every report the queue accepted, in order. */
  function Staged(setup: Setup, steps: seq<Step>): seq<Report> {
    if steps == [] then []
    else
      var init := steps[..|steps| - 1];
      Staged(setup, init) + Stages(State(setup, init), steps[|steps| - 1])
  }

  /** Every payload the ACK FIFO took, in order. */
  function Out(setup: Setup, steps: seq<Step>): seq<Written> {
    if steps == [] then []
    else
      var init := steps[..|steps| - 1];
      match Wrote(State(setup, init), steps[|steps| - 1])
      case None => Out(setup, init)
      case Some(w) => Out(setup, init) + [w]
  }

  /** The queue-derived reports of those payloads, and all their reports in wire order. */
  function QueuedOut(out: seq<Written>): seq<Report> {
    if out == [] then []
    else QueuedOut(out[..|out| - 1]) + if out[|out| - 1].Replies? then out[|out| - 1].queued else []
  }

  function ReportsOut(out: seq<Written>): seq<Report> {
    if out == [] then [] else ReportsOut(out[..|out| - 1]) + out[|out| - 1].Reports()
  }

  /** The reports a step writes, and those of them that leave the queue. */
  function WroteReports(c: Central, step: Step): seq<Report>
    requires c.pointer.Shaped()
  {
    if Wrote(c, step).Some? then Wrote(c, step).value.Reports() else []
  }

  function TookReports(c: Central, step: Step): seq<Report>
    requires c.pointer.Shaped()
  {
    if Wrote(c, step).Some? && Wrote(c, step).value.Replies? then Wrote(c, step).value.queued else []
  }

  /** The idle snapshot and the pointer's own report among them. */
  function SnapshotOf(c: Central, step: Step): seq<Report>
    requires c.pointer.Shaped()
  {
    if Wrote(c, step).Some? && Wrote(c, step).value.Replies? then Wrote(c, step).value.snapshot else []
  }

  function OwnOf(c: Central, step: Step): seq<Report>
    requires c.pointer.Shaped()
  {
    if Wrote(c, step).Some? && Wrote(c, step).value.Replies? then Wrote(c, step).value.pointer else []
  }

  lemma {:induction false} OutGrows(setup: Setup, steps: seq<Step>)
    requires steps != []
    ensures var c, step := State(setup, steps[..|steps| - 1]), steps[|steps| - 1];
      var before, after := Out(setup, steps[..|steps| - 1]), Out(setup, steps);
      && QueuedOut(after) == QueuedOut(before) + TookReports(c, step)
      && ReportsOut(after) == ReportsOut(before) + WroteReports(c, step)
  {
    var before, after := Out(setup, steps[..|steps| - 1]), Out(setup, steps);
    assert Wrote(State(setup, steps[..|steps| - 1]), steps[|steps| - 1]).Some? ==> after[..|after| - 1] == before;
  }

  lemma {:induction false} RunSnoc(setup: Setup, init: seq<Step>, step: Step)
    ensures var steps := init + [step];
      && State(setup, steps) == Do(State(setup, init), step)
      && Staged(setup, steps) == Staged(setup, init) + Stages(State(setup, init), step)
      && Out(setup, steps) == match Wrote(State(setup, init), step)
                              case None => Out(setup, init)
                              case Some(w) => Out(setup, init) + [w]
  {
    assert (init + [step])[..|init|] == init;
  }

  // ---- exactly once, in order ----

  /** The same report, but for the totals a mouse report is stamped with. */
  predicate SameButTotals(a: Report, b: Report) {
    a == b || (a.Mouse? && b.Mouse? && a.body.buttons == b.body.buttons)
  }

  ghost predicate Prefix(written: seq<Report>, staged: seq<Report>) {
    && |written| <= |staged|
    && forall i :: 0 <= i < |written| ==> SameButTotals(written[i], staged[i])
  }

  /** What one step does to the queue. */
  lemma {:induction false} QueueMoves(c: Central, step: Step)
    requires c.pointer.Shaped() && c.relay
    ensures var took := TookReports(c, step);
      && |took| <= |c.queue|
      && Do(c, step).queue == c.queue[|took|..] + Stages(c, step)
      && forall i :: 0 <= i < |took| ==> SameButTotals(took[i], c.queue[i])
  {
    if step.Poll? {
      PollQueue(c, step.accepted);
    } else {
      StagedQueue(c, step);
    }
  }

  lemma {:induction false} StagedQueue(c: Central, step: Step)
    requires c.pointer.Shaped() && !step.Poll?
    ensures Do(c, step).queue == c.queue[0..] + Stages(c, step)
  {
    assert c.queue[0..] == c.queue;
  }

  lemma {:induction false} PollQueue(c: Central, accepted: bool)
    requires c.pointer.Shaped() && c.relay
    ensures var r := PollOnce(c, accepted);
      var took := if r.1.Some? && r.1.value.Replies? then r.1.value.queued else [];
      && |took| <= |c.queue| && r.0.queue == c.queue[|took|..]
      && forall i :: 0 <= i < |took| ==> SameButTotals(took[i], c.queue[i])
  {
    assert c.queue[0..] == c.queue;
  }

  lemma {:induction false} PrefixExtends(written: seq<Report>, more: seq<Report>, staged: seq<Report>,
                                         queue: seq<Report>,
                                         extra: seq<Report>)
    requires Prefix(written, staged) && queue == staged[|written|..]
    requires |more| <= |queue| && forall i :: 0 <= i < |more| ==> SameButTotals(more[i], queue[i])
    ensures Prefix(written + more, staged + extra)
    ensures (staged + extra)[|written + more|..] == queue[|more|..] + extra
  {
  }

  /** Over every run of staging, polling and refused writes: the queue-derived reports written are
      a prefix of the staged sequence, and the queue holds exactly the rest of it. */
  lemma {:induction false} ExactlyOnceInOrder(setup: Setup, steps: seq<Step>)
    ensures Prefix(QueuedOut(Out(setup, steps)), Staged(setup, steps))
    ensures State(setup, steps).queue == Staged(setup, steps)[|QueuedOut(Out(setup, steps))|..]
  {
    if steps != [] {
      var init, step := steps[..|steps| - 1], steps[|steps| - 1];
      ExactlyOnceInOrder(setup, init);
      var c := State(setup, init);
      QueueMoves(c, step);
      OutGrows(setup, steps);
      PrefixExtends(QueuedOut(Out(setup, init)), TookReports(c, step), Staged(setup, init), c.queue, Stages(c, step));
    }
  }

  /** A refused write leaves the queue, the control latches and the pointer as they were, and
      drops no idle snapshot but a stale one. */
  lemma {:induction false} RefusedChangesNothing(c: Central)
    requires c.pointer.Shaped()
    ensures var r := PollOnce(c, false);
      && r.1.None?
      && r.0 == c.(idle := r.0.idle)
      && (r.0.idle != c.idle ==> c.idle.Some? && c.idle.value.staged != c.staged && r.0.idle.None?)
  {
  }

  // ---- packing ----

  lemma {:induction false} LengthNext(rs: seq<Report>, n: nat)
    requires n < |rs|
    ensures TotalLength(rs[..n + 1]) == TotalLength(rs[..n]) + Length(rs[n])
  {
    assert rs[..n + 1][..n] == rs[..n];
  }

  /** Stamping a report leaves it its length. */
  lemma {:induction false} PackedLength(c: Central, n: nat)
    requires c.pointer.Shaped() && n <= |c.queue|
    ensures TotalLength(Packed(c, n)) == TotalLength(c.queue[..n])
  {
    SameLengths(Packed(c, n), c.queue[..n]);
  }

  lemma {:induction false} SameLengths(a: seq<Report>, b: seq<Report>)
    requires |a| == |b| && forall i :: 0 <= i < |a| ==> Length(a[i]) == Length(b[i])
    ensures TotalLength(a) == TotalLength(b)
  {
    if a != [] { SameLengths(a[..|a| - 1], b[..|b| - 1]); }
  }

  /** A relay takes what fits, and the report at `n` if it does. */
  lemma {:induction false} TakenWithin(queue: seq<Report>, room: nat, n: nat, used: nat)
    requires n <= |queue| && used == TotalLength(queue[..n]) <= room
    ensures var m := TakenFrom(true, queue, room, used, n);
      && TotalLength(queue[..m]) <= room
      && (n < |queue| && used + Length(queue[n]) <= room ==> m > n)
    decreases |queue| - n
  {
    if n < |queue| && used + Length(queue[n]) <= room {
      LengthNext(queue, n);
      TakenMore(true, queue, room, used, n);
      TakenWithin(queue, room, n + 1, used + Length(queue[n]));
    }
  }

  lemma {:induction false} TakenFits(c: Central, room: nat)
    requires c.pointer.Shaped() && c.relay
    ensures var m := TakenFrom(c.relay, c.queue, room, 0, 0);
      && TotalLength(Packed(c, m)) <= room
      && (c.queue != [] && Length(c.queue[0]) <= room ==> m > 0)
  {
    assert c.queue[..0] == [] && TotalLength([]) == 0;
    TakenWithin(c.queue, room, 0, 0);
    PackedLength(c, TakenFrom(true, c.queue, room, 0, 0));
  }

  /** A relay payload takes as many whole reports as fit in 48 bytes, ten fewer while motion is pending;
      another pipe's takes one command. */
  lemma {:induction false} CountIsMost(c: Central)
    requires c.pointer.Shaped()
    ensures var n, room := Count(c), if c.relay && c.pointer.MotionPending() then 38 else 48;
      && TotalLength(c.queue[..n]) <= room
      && (c.relay && n < |c.queue| ==> TotalLength(c.queue[..n + 1]) > room)
      && (!c.relay ==> n == if c.queue != [] && Length(c.queue[0]) <= room then 1 else 0)
  {
    assert c.queue[..0] == [] && TotalLength([]) == 0;
    if c.relay {
      TakenMost(c.queue, QueuedRoom(c), 0, 0);
    } else if c.queue != [] {
      LengthNext(c.queue, 0);
    }
  }

  lemma {:induction false} TakenMost(queue: seq<Report>, room: nat, n: nat, used: nat)
    requires n <= |queue| && used == TotalLength(queue[..n]) <= room
    ensures var m := TakenFrom(true, queue, room, used, n);
      TotalLength(queue[..m]) <= room && (m < |queue| ==> TotalLength(queue[..m + 1]) > room)
    decreases |queue| - n
  {
    if n < |queue| {
      LengthNext(queue, n);
      if used + Length(queue[n]) <= room {
        TakenMore(true, queue, room, used, n);
        TakenMost(queue, room, n + 1, used + Length(queue[n]));
      }
    }
  }

  /** What a poll offers, when no control is waiting. */
  function Offered(c: Central): Written
    requires c.pointer.Shaped()
  {
    if Count(c) > 0 then QueuedPayload(c) else IdlePayload(c)
  }

  ghost predicate CarriesTotals(c: Central, rs: seq<Report>)
    requires c.pointer.Shaped()
  {
    forall i :: 0 <= i < |rs| && rs[i].Mouse? ==> rs[i].body.totals == c.pointer.Totals()
  }

  /** A keyboard report followed by a consumer report. */
  predicate IsSnapshot(sizes: Sizes, rs: seq<Report>) {
    |rs| == 2 && rs[0].Keyboard? && rs[1].Consumer? && IsHid(sizes, rs[0]) && IsHid(sizes, rs[1])
  }

  predicate SnapshotIsHid(sizes: Sizes, c: Central) {
    c.idle.Some? ==> IsSnapshot(sizes, c.idle.value.reports)
  }

  lemma {:induction false} OneLength(a: Report)
    ensures TotalLength([a]) == Length(a)
  {
    assert [a][..0] == [];
    assert TotalLength([]) == 0;
  }

  lemma {:induction false} TwoLengths(a: Report, b: Report)
    ensures TotalLength([a, b]) == Length(a) + Length(b)
  {
    assert [a, b] == [a] + [b];
    LengthAppend([a], [b]);
    OneLength(a);
    OneLength(b);
  }

  lemma {:induction false} HidFits(sizes: Sizes, r: Report)
    requires sizes.Valid() && IsHid(sizes, r)
    ensures Length(r) <= MAX_PAYLOAD - POINTER_LENGTH
  {
  }

  lemma {:induction false} HeadFits(sizes: Sizes, c: Central)
    requires sizes.Valid() && c.pointer.Shaped() && c.relay && AllHid(sizes, c.queue)
    ensures TotalLength(Packed(c, Count(c))) <= QueuedRoom(c)
    ensures c.queue != [] ==> Count(c) > 0
  {
    if c.queue != [] {
      HidFits(sizes, c.queue[0]);
    }
    TakenFits(c, QueuedRoom(c));
  }

  lemma {:induction false} IdleFits(sizes: Sizes, c: Central)
    requires sizes.Valid() && c.pointer.Shaped() && SnapshotIsHid(sizes, c)
    ensures TotalLength(IdlePayload(c).snapshot) <= MAX_PAYLOAD - POINTER_LENGTH
    ensures forall i :: 0 <= i < |IdlePayload(c).snapshot| ==> !IdlePayload(c).snapshot[i].Mouse?
  {
    var rs := IdlePayload(c).snapshot;
    if IdleIsFresh(c) {
      assert rs == [rs[0], rs[1]];
      TwoLengths(rs[0], rs[1]);
    }
  }

  /** The pointer report a payload gets on top of `rs`. */
  lemma {:induction false} Appended(c: Central, rs: seq<Report>, changesQueued: bool)
    requires c.pointer.Shaped() && c.relay && TotalLength(rs) <= MAX_PAYLOAD && CarriesTotals(c, rs)
    ensures var p := Append(c, rs, changesQueued);
      && TotalLength(rs + p) <= MAX_PAYLOAD && CarriesTotals(c, rs + p)
      && (LastMouse(rs).Some? ==> LastMouse(rs + p).Some?)
      && (c.pointer.MotionPending() && TotalLength(rs) <= MAX_PAYLOAD - POINTER_LENGTH ==> LastMouse(rs + p).Some?)
  {
    var p := Append(c, rs, changesQueued);
    LengthAppend(rs, p);
    CarryAppend(c, rs, p);
  }

  lemma {:induction false} NoMouseCarries(c: Central, rs: seq<Report>)
    requires c.pointer.Shaped() && forall i :: 0 <= i < |rs| ==> !rs[i].Mouse?
    ensures CarriesTotals(c, rs)
  {
  }

  lemma {:induction false} QueuedOffer(sizes: Sizes, c: Central)
    requires sizes.Valid() && c.pointer.Shaped() && c.relay && AllHid(sizes, c.queue) && Count(c) > 0
    ensures var w := QueuedPayload(c);
      && w.queued != []
      && TotalLength(w.Reports()) <= MAX_PAYLOAD
      && CarriesTotals(c, w.Reports())
      && (c.pointer.MotionPending() ==> LastMouse(w.Reports()).Some?)
  {
    HeadFits(sizes, c);
    var w := QueuedPayload(c);
    Appended(c, w.queued, Count(c) < |c.queue|);
    assert w.queued + [] == w.queued;
  }

  lemma {:induction false} IdleOffer(sizes: Sizes, c: Central)
    requires sizes.Valid() && c.pointer.Shaped() && c.relay && SnapshotIsHid(sizes, c)
    ensures var w := IdlePayload(c);
      && TotalLength(w.Reports()) <= MAX_PAYLOAD
      && CarriesTotals(c, w.Reports())
      && (c.pointer.MotionPending() ==> LastMouse(w.Reports()).Some?)
  {
    IdleFits(sizes, c);
    SnapshotOffer(c, IdlePayload(c).snapshot);
  }

  lemma {:induction false} SnapshotOffer(c: Central, snapshot: seq<Report>)
    requires c.pointer.Shaped() && c.relay && TotalLength(snapshot) <= MAX_PAYLOAD - POINTER_LENGTH
    requires forall i :: 0 <= i < |snapshot| ==> !snapshot[i].Mouse?
    ensures var rs := [] + snapshot + Append(c, snapshot, false);
      && TotalLength(rs) <= MAX_PAYLOAD
      && CarriesTotals(c, rs)
      && (c.pointer.MotionPending() ==> LastMouse(rs).Some?)
  {
    NoMouseCarries(c, snapshot);
    Appended(c, snapshot, false);
    assert [] + snapshot == snapshot;
  }

  /** No starvation in packing: a non-empty queue always gives up a report, within 48 bytes. */
  lemma {:induction false} QueueNotStarved(sizes: Sizes, c: Central)
    requires sizes.Valid() && c.pointer.Shaped() && c.relay && AllHid(sizes, c.queue) && SnapshotIsHid(sizes, c)
    ensures c.queue != [] ==> Offered(c).queued != []
    ensures TotalLength(Offered(c).Reports()) <= MAX_PAYLOAD
  {
    HeadFits(sizes, c);
    if Count(c) > 0 {
      QueuedOffer(sizes, c);
    } else {
      IdleOffer(sizes, c);
    }
  }

  /** Every mouse report of a payload carries the current totals, and while totals have moved there is one. */
  lemma {:induction false} TotalsNotStarved(sizes: Sizes, c: Central)
    requires sizes.Valid() && c.pointer.Shaped() && c.relay && AllHid(sizes, c.queue) && SnapshotIsHid(sizes, c)
    ensures CarriesTotals(c, Offered(c).Reports())
    ensures c.pointer.MotionPending() ==> LastMouse(Offered(c).Reports()).Some?
  {
    HeadFits(sizes, c);
    if Count(c) > 0 {
      QueuedOffer(sizes, c);
    } else {
      IdleOffer(sizes, c);
    }
  }

  lemma {:induction false} CarryAppend(c: Central, a: seq<Report>, b: seq<Report>)
    requires c.pointer.Shaped() && CarriesTotals(c, a) && CarriesTotals(c, b)
    ensures CarriesTotals(c, a + b)
    ensures LastMouse(a).Some? || LastMouse(b).Some? ==> LastMouse(a + b).Some?
  {
    if LastMouse(a).Some? {
      var i :| 0 <= i < |a| && a[i].Mouse?;
      assert (a + b)[i].Mouse?;
    } else if LastMouse(b).Some? {
      var i :| 0 <= i < |b| && b[i].Mouse?;
      assert (a + b)[|a| + i].Mouse?;
    }
  }

  // ---- every reachable state is fit to pack ----

  /** Each report staged is a whole HID report. */
  predicate HidRun(sizes: Sizes, steps: seq<Step>) {
    forall i :: 0 <= i < |steps| && steps[i].Change? ==> IsHid(sizes, steps[i].report)
  }

  ghost predicate FitToPack(sizes: Sizes, c: Central) {
    && c.pointer.Shaped() && c.relay && AllHid(sizes, c.queue) && SnapshotIsHid(sizes, c)
    && IsHid(sizes, Keyboard(c.keyboard)) && IsHid(sizes, Consumer(c.consumer))
  }

  lemma {:induction false} StepStaysFit(sizes: Sizes, c: Central, step: Step)
    requires FitToPack(sizes, c) && (step.Change? ==> IsHid(sizes, step.report))
    ensures FitToPack(sizes, Do(c, step))
  {
    QueueStaysHid(sizes, c, step);
    IdleMoves(c, step);
    HidMoves(c, step);
  }

  lemma {:induction false} QueueStaysHid(sizes: Sizes, c: Central, step: Step)
    requires c.pointer.Shaped() && c.relay && AllHid(sizes, c.queue) && (step.Change? ==> IsHid(sizes, step.report))
    ensures AllHid(sizes, Do(c, step).queue)
  {
    QueueMoves(c, step);
    StagedIsHid(sizes, c, step);
    HidAppend(sizes, c.queue, |TookReports(c, step)|, Stages(c, step));
  }

  lemma {:induction false} StagedIsHid(sizes: Sizes, c: Central, step: Step)
    requires step.Change? ==> IsHid(sizes, step.report)
    ensures AllHid(sizes, Stages(c, step))
  {
  }

  lemma {:induction false} HidAppend(sizes: Sizes, queue: seq<Report>, n: nat, more: seq<Report>)
    requires AllHid(sizes, queue) && n <= |queue| && AllHid(sizes, more)
    ensures AllHid(sizes, queue[n..] + more)
  {
  }

  /** What one step does to the latched snapshot, and to ZMK's two reports. */
  lemma {:induction false} IdleMoves(c: Central, step: Step)
    requires c.pointer.Shaped() && c.relay
    ensures Do(c, step).idle == (if step.Latch? then Some(Idle([Keyboard(c.keyboard), Consumer(c.consumer)], c.staged))
                                 else if step.Poll? then Do(c, step).idle else c.idle)
    ensures step.Poll? ==> Do(c, step).idle in {None, c.idle}
  {
  }

  lemma {:induction false} HidMoves(c: Central, step: Step)
    requires c.pointer.Shaped() && c.relay
    ensures Do(c, step).keyboard == (if step.Change? && step.report.Keyboard? then step.report.rest else c.keyboard)
    ensures Do(c, step).consumer == (if step.Change? && step.report.Consumer? then step.report.rest else c.consumer)
  {
  }

  lemma {:induction false} AlwaysFit(setup: Setup, steps: seq<Step>)
    requires setup.sizes.Valid() && HidRun(setup.sizes, steps)
    ensures FitToPack(setup.sizes, State(setup, steps))
  {
    if steps == [] {
    } else {
      AlwaysFit(setup, steps[..|steps| - 1]);
      StepStaysFit(setup.sizes, State(setup, steps[..|steps| - 1]), steps[|steps| - 1]);
    }
  }

  /** No poll of any run starves the queue or the totals. */
  lemma {:induction false} NeverStarved(setup: Setup, steps: seq<Step>)
    requires setup.sizes.Valid() && HidRun(setup.sizes, steps)
    ensures var c := State(setup, steps); var w := Offered(c);
      && (c.queue != [] ==> w.queued != [])
      && TotalLength(w.Reports()) <= MAX_PAYLOAD
      && CarriesTotals(c, w.Reports())
      && (c.pointer.MotionPending() ==> LastMouse(w.Reports()).Some?)
  {
    AlwaysFit(setup, steps);
    QueueNotStarved(setup.sizes, State(setup, steps));
    TotalsNotStarved(setup.sizes, State(setup, steps));
  }

  // ---- what a poll does ----

  /** The pointer's own report on top of a payload: it shows the written buttons while something is
      still queued, the held ones otherwise. */
  predicate OwnReport(c: Central, own: seq<Report>, left: seq<Report>) {
    own == [] || (|own| == 1 && own[0].Mouse?
                  && own[0].body.buttons == if left == [] then c.pointer.buttons else c.pointer.written.buttons)
  }

  lemma {:induction false} QueuedPoll(c: Central)
    requires c.pointer.Shaped() && c.relay && Count(c) > 0 && FirstControl(c) == |c.control|
    ensures Wrote(c, Poll(true)) == Some(QueuedPayload(c))
    ensures Do(c, Poll(true)).pointer == c.pointer.Sent(QueuedPayload(c).Reports())
  {
  }

  lemma {:induction false} QueuedLeft(c: Central)
    requires c.pointer.Shaped() && c.relay && Count(c) > 0 && FirstControl(c) == |c.control|
    ensures Do(c, Poll(true)).queue == c.queue[Count(c)..]
  {
  }

  lemma {:induction false} QueuedReports(c: Central)
    requires c.pointer.Shaped() && c.relay && Count(c) > 0
    ensures |QueuedPayload(c).queued| == Count(c) && QueuedPayload(c).snapshot == []
    ensures OwnReport(c, QueuedPayload(c).pointer, c.queue[Count(c)..])
    ensures QueuedPayload(c).pointer != [] ==> LastMouse(QueuedPayload(c).queued).None?
    ensures forall i :: 0 <= i < Count(c) ==> SameButTotals(QueuedPayload(c).queued[i], c.queue[i])
  {
  }

  lemma {:induction false} IdlePoll(sizes: Sizes, c: Central)
    requires FitToPack(sizes, c) && c.queue == [] && FirstControl(c) == |c.control|
    ensures WroteReports(c, Poll(true)) == IdlePayload(c).Reports() && TookReports(c, Poll(true)) == []
    ensures SnapshotOf(c, Poll(true)) == IdlePayload(c).snapshot && OwnOf(c, Poll(true)) == IdlePayload(c).pointer
    ensures Do(c, Poll(true)).idle == None && Do(c, Poll(true)).queue == []
    ensures Do(c, Poll(true)).pointer == c.pointer.Sent(IdlePayload(c).pointer)
  {
  }

  lemma {:induction false} OtherPoll(c: Central, accepted: bool)
    requires c.pointer.Shaped() && c.relay && (!accepted || FirstControl(c) < |c.control|)
    ensures Do(c, Poll(accepted)).queue == c.queue && Do(c, Poll(accepted)).pointer == c.pointer
    ensures WroteReports(c, Poll(accepted)) == [] == TookReports(c, Poll(accepted))
    ensures SnapshotOf(c, Poll(accepted)) == [] == OwnOf(c, Poll(accepted))
  {
  }

  lemma {:induction false} SentSame(p: Pointer, a: seq<Report>, b: seq<Report>)
    requires forall i :: 0 <= i < |a| ==> !a[i].Mouse?
    ensures p.Sent([] + a + b) == p.Sent(b)
  {
    assert [] + a == a;
    LastOf(a, b);
  }

  lemma {:induction false} LastOf(a: seq<Report>, b: seq<Report>)
    ensures LastMouse(a + b) == if LastMouse(b).Some? then LastMouse(b) else LastMouse(a)
  {
    if b == [] {
      assert a + b == a;
    } else {
      assert (a + b)[..|a + b| - 1] == a + b[..|b| - 1];
      LastOf(a, b[..|b| - 1]);
    }
  }

  /** What a poll writes: queued reports, or a fresh snapshot with nothing queued, and the pointer's
      own report; and its last mouse report is what is committed. */
  lemma {:induction false} PollEffect(sizes: Sizes, c: Central, accepted: bool)
    returns (moved: seq<Report>, snapshot: seq<Report>, own: seq<Report>)
    requires FitToPack(sizes, c) && sizes.Valid()
    ensures WroteReports(c, Poll(accepted)) == moved + snapshot + own && TookReports(c, Poll(accepted)) == moved
    ensures SnapshotOf(c, Poll(accepted)) == snapshot && OwnOf(c, Poll(accepted)) == own
    ensures |moved| <= |c.queue| && Do(c, Poll(accepted)).queue == c.queue[|moved|..]
    ensures forall i :: 0 <= i < |moved| ==> SameButTotals(moved[i], c.queue[i])
    ensures OwnReport(c, own, c.queue[|moved|..]) && (own != [] ==> LastMouse(moved).None?)
    ensures forall i :: 0 <= i < |snapshot| ==> !snapshot[i].Mouse?
    ensures snapshot != [] ==> c.queue == [] && IdleIsFresh(c) && snapshot == c.idle.value.reports
    ensures snapshot != [] ==> Do(c, Poll(accepted)).idle == None
    ensures Do(c, Poll(accepted)).pointer == c.pointer.Sent(WroteReports(c, Poll(accepted)))
  {
    moved, snapshot, own := [], [], [];
    HeadFits(sizes, c);
    assert c.queue[0..] == c.queue;
    if accepted && FirstControl(c) == |c.control| {
      if Count(c) > 0 {
        QueuedPoll(c);
        QueuedLeft(c);
        QueuedReports(c);
        moved, own := QueuedPayload(c).queued, QueuedPayload(c).pointer;
      } else {
        IdlePoll(sizes, c);
        IdleFits(sizes, c);
        snapshot, own := IdlePayload(c).snapshot, IdlePayload(c).pointer;
        SentSame(c.pointer, snapshot, own);
      }
    } else {
      OtherPoll(c, accepted);
    }
  }

  /** The next write drains the queue and shows the held buttons on top: nothing in the queue shows any,
      there is room, and there is news or a refresh due. */
  predicate ShowsHeld(c: Central)
    requires c.pointer.Shaped()
  {
    && FirstControl(c) == |c.control| && Count(c) == |c.queue|
    && (forall i :: 0 <= i < |c.queue| ==> !c.queue[i].Mouse?)
    && TotalLength(c.queue) <= MAX_PAYLOAD - POINTER_LENGTH
    && (c.pointer.refresh || c.pointer.buttons != c.pointer.written.buttons || c.pointer.MotionPending())
  }

  lemma {:induction false} TakeIff(p: Pointer, room: nat)
    requires p.Shaped()
    ensures p.Take(room, false) != [] <==>
            room >= POINTER_LENGTH && (p.refresh || p.buttons != p.written.buttons || p.MotionPending())
  {
  }

  lemma {:induction false} PackedMouse(c: Central, n: nat)
    requires c.pointer.Shaped() && n <= |c.queue|
    ensures LastMouse(Packed(c, n)).None? <==> forall i :: 0 <= i < n ==> !c.queue[i].Mouse?
  {
    if LastMouse(Packed(c, n)).None? {
      forall i | 0 <= i < n ensures !c.queue[i].Mouse? { assert !Packed(c, n)[i].Mouse?; }
    } else {
      var i :| 0 <= i < n && Packed(c, n)[i].Mouse?;
      assert c.queue[i].Mouse?;
    }
  }

  lemma {:induction false} QueuedShowsHeld(c: Central)
    requires c.pointer.Shaped() && c.relay && 0 < Count(c) == |c.queue|
    ensures QueuedPayload(c).pointer != [] <==>
            && (forall i :: 0 <= i < |c.queue| ==> !c.queue[i].Mouse?)
            && TotalLength(c.queue) <= MAX_PAYLOAD - POINTER_LENGTH
            && (c.pointer.refresh || c.pointer.buttons != c.pointer.written.buttons || c.pointer.MotionPending())
  {
    var n := Count(c);
    PackedMouse(c, n);
    PackedLength(c, n);
    assert c.queue[..n] == c.queue;
    if TotalLength(c.queue) <= MAX_PAYLOAD { TakeIff(c.pointer, MAX_PAYLOAD - TotalLength(c.queue)); }
  }

  lemma {:induction false} IdleShowsHeld(sizes: Sizes, c: Central)
    requires sizes.Valid() && FitToPack(sizes, c) && c.queue == [] && FirstControl(c) == |c.control|
    ensures IdlePayload(c).pointer != [] <==> ShowsHeld(c)
  {
    IdleFits(sizes, c);
    assert TotalLength([]) == 0;
    TakeIff(c.pointer, MAX_PAYLOAD - TotalLength(IdlePayload(c).snapshot));
  }

  lemma {:induction false} ShowsHeldIff(sizes: Sizes, c: Central, accepted: bool)
    requires sizes.Valid() && FitToPack(sizes, c)
    ensures OwnOf(c, Poll(accepted)) != [] && Do(c, Poll(accepted)).queue == [] <==> accepted && ShowsHeld(c)
  {
    HeadFits(sizes, c);
    if !accepted || FirstControl(c) < |c.control| {
      OtherPoll(c, accepted);
    } else if Count(c) > 0 {
      QueuedPollShows(c);
    } else {
      IdlePollShows(sizes, c);
    }
  }

  lemma {:induction false} QueuedPollShows(c: Central)
    requires c.pointer.Shaped() && c.relay && Count(c) > 0 && FirstControl(c) == |c.control|
    ensures OwnOf(c, Poll(true)) != [] && Do(c, Poll(true)).queue == [] <==> ShowsHeld(c)
  {
    QueuedPoll(c);
    QueuedLeft(c);
    if Count(c) == |c.queue| { QueuedShowsHeld(c); }
  }

  lemma {:induction false} IdlePollShows(sizes: Sizes, c: Central)
    requires sizes.Valid() && FitToPack(sizes, c) && c.queue == [] && FirstControl(c) == |c.control|
    ensures OwnOf(c, Poll(true)) != [] && Do(c, Poll(true)).queue == [] <==> ShowsHeld(c)
  {
    IdlePoll(sizes, c);
    IdleShowsHeld(sizes, c);
  }
}
