/** The idle refresh: a snapshot is written only when nothing is queued and nothing was staged since
    it was latched, so no HID state is ever undone (src/esb_link_central.c:142-175, 290-316). */
module RelayRefresh {
  import opened Common
  import opened RelayReports
  import opened RelayCentral
  import opened RelayRuns
  import opened RelayCounts

  // ---- dating what is written ----

  predicate Sorted(s: seq<nat>) { forall i, j :: 0 <= i < j < |s| ==> s[i] <= s[j] }

  predicate AtMost(s: seq<nat>, top: nat) { forall i :: 0 <= i < |s| ==> s[i] <= top }

  /** Report `i` is the state after the first `dates[i]` changes. */
  predicate Dated(setup: Setup, changes: seq<Report>, reports: seq<Report>, dates: seq<nat>) {
    && |dates| == |reports| && AtMost(dates, |changes|)
    && forall i :: 0 <= i < |reports| ==> dates[i] <= |changes| && InForce(setup, changes[..dates[i]], reports[i])
  }

  /** The states are in the order of the changes: none is older than one before it. */
  ghost predicate NeverOlder(setup: Setup, changes: seq<Report>, reports: seq<Report>) {
    exists dates :: Dated(setup, changes, reports, dates) && Sorted(dates)
  }

  /** A poll that writes a snapshot finds the counts settled, within one turn of the counter. */
  predicate Timely(setup: Setup, init: seq<Step>, step: Step) {
    SnapshotOf(State(setup, init), step) != [] ==> WithinTurn(setup, init) && CountsSettled(setup, init)
  }

  predicate TimelyPolls(setup: Setup, steps: seq<Step>) {
    steps == [] || (TimelyPolls(setup, steps[..|steps| - 1]) && Timely(setup, steps[..|steps| - 1], steps[|steps| - 1]))
  }

  function Top(s: seq<nat>): nat { if s == [] then 0 else s[|s| - 1] }

  /** Dates for what is written and for what is queued, in one order. */
  ghost predicate Timeline(setup: Setup, changes: seq<Report>, reports: seq<Report>, queue: seq<Report>,
                           written: seq<nat>, queued: seq<nat>) {
    && Dated(setup, changes, reports, written) && Dated(setup, changes, queue, queued)
    && Sorted(written + queued)
  }

  lemma {:induction false} MoreChanges(setup: Setup, changes: seq<Report>, more: seq<Report>, reports: seq<Report>,
                                       dates: seq<nat>)
    requires Dated(setup, changes, reports, dates)
    ensures Dated(setup, changes + more, reports, dates)
  {
    forall i | 0 <= i < |reports|
      ensures dates[i] <= |changes + more| && InForce(setup, (changes + more)[..dates[i]], reports[i])
    {
      assert (changes + more)[..dates[i]] == changes[..dates[i]];
    }
  }

  lemma {:induction false} DatedAppend(setup: Setup, changes: seq<Report>, a: seq<Report>, b: seq<Report>, s: seq<nat>,
                                       t: seq<nat>)
    requires Dated(setup, changes, a, s) && Dated(setup, changes, b, t)
    ensures Dated(setup, changes, a + b, s + t)
  {
  }

  lemma {:induction false} DatedNow(setup: Setup, changes: seq<Report>, rs: seq<Report>, date: nat)
    requires date <= |changes| && forall i :: 0 <= i < |rs| ==> InForce(setup, changes[..date], rs[i])
    ensures Dated(setup, changes, rs, Repeat(|rs|, date))
  {
  }

  lemma {:induction false} DatedStamped(setup: Setup, changes: seq<Report>, queue: seq<Report>, dates: seq<nat>,
                                        moved: seq<Report>)
    requires Dated(setup, changes, queue, dates) && |moved| <= |queue|
    requires forall i :: 0 <= i < |moved| ==> SameButTotals(moved[i], queue[i])
    ensures Dated(setup, changes, moved, dates[..|moved|])
    ensures Dated(setup, changes, queue[|moved|..], dates[|moved|..])
  {
  }

  lemma {:induction false} SortedInsert(a: seq<nat>, n: nat, b: seq<nat>, top: nat)
    requires Sorted(a + b) && (a == [] || top == a[|a| - 1]) && (a == [] ==> top == 0)
    ensures Sorted((a + Repeat(n, top)) + b)
  {
    assert forall i :: 0 <= i < |a| ==> a[i] == (a + b)[i];
    assert forall i :: 0 <= i < |b| ==> b[i] == (a + b)[|a| + i];
  }

  lemma {:induction false} SortedAppend(s: seq<nat>, n: nat, top: nat)
    requires Sorted(s) && AtMost(s, top)
    ensures Sorted(s + Repeat(n, top))
  {
  }

  /** A report enters the queue. */
  lemma {:induction false} StageDates(setup: Setup, changes: seq<Report>, more: seq<Report>, reports: seq<Report>,
                                      queue: seq<Report>, staged: seq<Report>, written: seq<nat>, queued: seq<nat>)
    requires Timeline(setup, changes, reports, queue, written, queued)
    requires forall i :: 0 <= i < |staged| ==> InForce(setup, changes + more, staged[i])
    ensures Timeline(setup, changes + more, reports, queue + staged, written,
                     queued + Repeat(|staged|, |changes + more|))
  {
    MoreChanges(setup, changes, more, reports, written);
    MoreChanges(setup, changes, more, queue, queued);
    var all := changes + more;
    assert all[..|all|] == all;
    DatedNow(setup, all, staged, |all|);
    DatedAppend(setup, all, queue, staged, queued, Repeat(|staged|, |all|));
    SortedAppend(written + queued, |staged|, |all|);
    assert (written + queued) + Repeat(|staged|, |all|) == written + (queued + Repeat(|staged|, |all|));
  }

  /** The dates written once `n` queued reports and `own` pointer reports are. */
  function TakenDates(written: seq<nat>, queued: seq<nat>, n: nat, own: nat): seq<nat>
    requires n <= |queued|
  {
    (written + queued[..n]) + Repeat(own, Top(written + queued[..n]))
  }

  lemma {:induction false} TakenAtMost(written: seq<nat>, queued: seq<nat>, n: nat, own: nat, top: nat)
    requires n <= |queued| && AtMost(written + queued, top)
    ensures AtMost(TakenDates(written, queued, n, own) + queued[n..], top)
  {
    var a, b := written + queued[..n], queued[n..];
    assert a + b == written + queued;
    assert forall i :: 0 <= i < |a| ==> a[i] == (a + b)[i];
    assert forall i :: 0 <= i < |b| ==> b[i] == (a + b)[|a| + i];
  }

  /** `moved` leaves the queue, and `own`, the pointer's reports, follow it. */
  lemma {:induction false} TakeDates(setup: Setup, changes: seq<Report>, reports: seq<Report>, queue: seq<Report>,
                                     moved: seq<Report>, own: seq<Report>, written: seq<nat>, queued: seq<nat>)
    requires Timeline(setup, changes, reports, queue, written, queued) && |moved| <= |queue|
    requires forall i :: 0 <= i < |moved| ==> SameButTotals(moved[i], queue[i])
    requires forall i :: 0 <= i < |own| ==> own[i].Mouse?
    ensures Timeline(setup, changes, reports + (moved + own), queue[|moved|..],
                     TakenDates(written, queued, |moved|, |own|), queued[|moved|..])
  {
    var a, b := written + queued[..|moved|], queued[|moved|..];
    DatedStamped(setup, changes, queue, queued, moved);
    DatedAppend(setup, changes, reports, moved, written, queued[..|moved|]);
    assert a + b == written + queued;
    assert a != [] ==> a[|a| - 1] == (written + queued)[|a| - 1];
    DatedNow(setup, changes, own, Top(a));
    DatedAppend(setup, changes, reports + moved, own, a, Repeat(|own|, Top(a)));
    assert reports + (moved + own) == (reports + moved) + own;
    SortedInsert(a, |own|, b, Top(a));
  }

  /** A snapshot of the state after `date` changes, and `own`, with nothing queued. */
  lemma {:induction false} SnapshotDates(setup: Setup, changes: seq<Report>, reports: seq<Report>, rs: seq<Report>,
                                         date: nat,
                                         written: seq<nat>)
    requires Timeline(setup, changes, reports, [], written, []) && date <= |changes| && AtMost(written, date)
    requires forall i :: 0 <= i < |rs| ==> InForce(setup, changes[..date], rs[i])
    ensures Timeline(setup, changes, reports + rs, [], written + Repeat(|rs|, date), [])
  {
    assert written + [] == written;
    DatedNow(setup, changes, rs, date);
    DatedAppend(setup, changes, reports, rs, written, Repeat(|rs|, date));
    SortedAppend(written, |rs|, date);
    assert (written + Repeat(|rs|, date)) + [] == written + Repeat(|rs|, date);
  }

  // ---- one step's effect on the dates ----

  /** A timeline in which nothing is newer than a snapshot since which nothing was staged. */
  ghost predicate Chronicle(setup: Setup, changes: seq<Report>, reports: seq<Report>, queue: seq<Report>,
                            latch: Option<nat>,
                            written: seq<nat>, queued: seq<nat>) {
    && Timeline(setup, changes, reports, queue, written, queued)
    && (latch.Some? ==> AtMost(written + queued, latch.value))
  }

  lemma {:induction false} StageChronicle(setup: Setup, changes: seq<Report>, more: seq<Report>, reports: seq<Report>,
                                          queue: seq<Report>, staged: seq<Report>, latch: Option<nat>,
                                          latch': Option<nat>,
                                          written: seq<nat>, queued: seq<nat>)
    requires Chronicle(setup, changes, reports, queue, latch, written, queued)
    requires forall i :: 0 <= i < |staged| ==> InForce(setup, changes + more, staged[i])
    requires latch' == None || latch' == Some(|changes + more|) || (latch' == latch && staged == [])
    ensures Chronicle(setup, changes + more, reports, queue + staged, latch', written,
                     queued + Repeat(|staged|, |changes + more|))
  {
    StageDates(setup, changes, more, reports, queue, staged, written, queued);
    if staged == [] { assert queued + Repeat(|staged|, |changes + more|) == queued; }
  }

  lemma {:induction false} TakeChronicle(setup: Setup, changes: seq<Report>, reports: seq<Report>, queue: seq<Report>,
                                         moved: seq<Report>, own: seq<Report>, latch: Option<nat>, latch': Option<nat>,
                                         written: seq<nat>, queued: seq<nat>)
    requires Chronicle(setup, changes, reports, queue, latch, written, queued) && |moved| <= |queue|
    requires forall i :: 0 <= i < |moved| ==> SameButTotals(moved[i], queue[i])
    requires forall i :: 0 <= i < |own| ==> own[i].Mouse?
    requires latch' == None || latch' == latch
    ensures Chronicle(setup, changes, reports + (moved + own), queue[|moved|..], latch',
                      TakenDates(written, queued, |moved|, |own|), queued[|moved|..])
  {
    TakeDates(setup, changes, reports, queue, moved, own, written, queued);
    if latch'.Some? { TakenAtMost(written, queued, |moved|, |own|, latch.value); }
  }

  // ---- over runs ----

  /** The date of a latched snapshot since which nothing was staged. */
  function LatchDate(setup: Setup, steps: seq<Step>): Option<nat> {
    if State(setup, steps).idle.Some? && Staged(setup, Latched(steps)) == Staged(setup, steps)
    then Some(|Changes(Latched(steps))|) else None
  }

  lemma {:induction false} LatchMoves(setup: Setup, init: seq<Step>, step: Step)
    ensures var before, after := LatchDate(setup, init), LatchDate(setup, init + [step]);
      && (Do(State(setup, init), step).idle.None? ==> after == None)
      && (if step.Latch? then after == None || after == Some(|Changes(init + [step])|)
          else after == None || (after == before && Stages(State(setup, init), step) == []))
  {
    assert (init + [step])[..|init|] == init;
    IdleMoves(State(setup, init), step);
    StagedSince(setup, init);
  }

  lemma {:induction false} QueueStays(c: Central, step: Step)
    requires c.pointer.Shaped() && c.relay && !step.Poll?
    ensures Do(c, step).queue == c.queue + Stages(c, step)
  {
    QueueMoves(c, step);
    assert c.queue[0..] == c.queue;
  }

  /** A fresh snapshot with nothing queued carries the states in force at its date. */
  lemma {:induction false} SnapshotInForce(setup: Setup, steps: seq<Step>)
    requires IdleIsFresh(State(setup, steps)) && WithinTurn(setup, steps) && CountsSettled(setup, steps)
    ensures LatchDate(setup, steps).Some? && LatchDate(setup, steps).value <= |Changes(steps)|
    ensures forall r :: r in State(setup, steps).idle.value.reports ==>
            InForce(setup, Changes(steps)[..LatchDate(setup, steps).value], r)
  {
    FreshUnchangedIff(setup, steps);
    SnapshotIs(setup, steps);
  }

  lemma {:induction false} SnapshotChronicle(setup: Setup, changes: seq<Report>, reports: seq<Report>,
                                             snapshot: seq<Report>,
                                             own: seq<Report>, date: nat, written: seq<nat>, queued: seq<nat>)
    returns (w: seq<nat>)
    requires Chronicle(setup, changes, reports, [], Some(date), written, queued) && date <= |changes|
    requires forall r :: r in snapshot ==> InForce(setup, changes[..date], r)
    requires forall i :: 0 <= i < |own| ==> own[i].Mouse?
    ensures Chronicle(setup, changes, reports + (snapshot + own), [], None, w, [])
  {
    assert queued == [] && written + [] == written;
    SnapshotDates(setup, changes, reports, snapshot + own, date, written);
    w := written + Repeat(|snapshot + own|, date);
  }

  /** Dates for everything written and queued, over any run. */
  lemma {:induction false} Chronicled(setup: Setup, steps: seq<Step>) returns (w: seq<nat>, q: seq<nat>)
    requires setup.sizes.Valid() && HidRun(setup.sizes, steps) && TimelyPolls(setup, steps)
    ensures Chronicle(setup, Changes(steps), ReportsOut(Out(setup, steps)), State(setup, steps).queue,
                      LatchDate(setup, steps), w, q)
  {
    if steps == [] {
      w, q := [], [];
    } else {
      var init, step := steps[..|steps| - 1], steps[|steps| - 1];
      assert steps == init + [step];
      w, q := Chronicled(setup, init);
      w, q := ChronicledStep(setup, init, step, w, q);
    }
  }

  lemma {:induction false} ChronicledStep(setup: Setup, init: seq<Step>, step: Step, w: seq<nat>, q: seq<nat>)
    returns (w': seq<nat>, q': seq<nat>)
    requires setup.sizes.Valid() && HidRun(setup.sizes, init) && Timely(setup, init, step)
    requires Chronicle(setup, Changes(init), ReportsOut(Out(setup, init)), State(setup, init).queue,
                       LatchDate(setup, init), w, q)
    ensures var steps := init + [step];
      Chronicle(setup, Changes(steps), ReportsOut(Out(setup, steps)), State(setup, steps).queue,
                LatchDate(setup, steps), w', q')
  {
    w', q' := w, q;
    assert (init + [step])[..|init|] == init;
    OutGrows(setup, init + [step]);
    if step.Poll? {
      w', q' := PollChronicled(setup, init, step.accepted, w, q);
    } else {
      q' := StageChronicled(setup, init, step, w, q);
      NothingWritten(setup, init, step);
    }
  }

  lemma {:induction false} NothingWritten(setup: Setup, init: seq<Step>, step: Step)
    requires !step.Poll?
    ensures ReportsOut(Out(setup, init + [step])) == ReportsOut(Out(setup, init))
  {
    RunSnoc(setup, init, step);
  }

  lemma {:induction false} StageChronicled(setup: Setup, init: seq<Step>, step: Step, w: seq<nat>, q: seq<nat>)
    returns (q': seq<nat>)
    requires !step.Poll?
    requires Chronicle(setup, Changes(init), ReportsOut(Out(setup, init)), State(setup, init).queue,
                       LatchDate(setup, init), w, q)
    ensures Chronicle(setup, Changes(init + [step]), ReportsOut(Out(setup, init)), Do(State(setup, init), step).queue,
                      LatchDate(setup, init + [step]), w, q')
  {
    var steps, c := init + [step], State(setup, init);
    assert steps[..|init|] == init;
    var staged, more := Stages(c, step), Changes(steps)[|Changes(init)|..];
    ChangesSnoc(init, step);
    QueueStays(c, step);
    LatchMoves(setup, init, step);
    forall i | 0 <= i < |staged| ensures InForce(setup, Changes(steps), staged[i]) { StagedIsLatest(setup, steps, i); }
    assert Changes(steps) == Changes(init) + more;
    StageChronicle(setup, Changes(init), more, ReportsOut(Out(setup, init)), c.queue, staged, LatchDate(setup, init),
                   LatchDate(setup, steps), w, q);
    q' := q + Repeat(|staged|, |Changes(init) + more|);
  }

  lemma {:induction false} PollChronicled(setup: Setup, init: seq<Step>, accepted: bool, w: seq<nat>, q: seq<nat>)
    returns (w': seq<nat>, q': seq<nat>)
    requires setup.sizes.Valid() && HidRun(setup.sizes, init) && Timely(setup, init, Poll(accepted))
    requires Chronicle(setup, Changes(init), ReportsOut(Out(setup, init)), State(setup, init).queue,
                       LatchDate(setup, init), w, q)
    ensures Chronicle(setup, Changes(init + [Poll(accepted)]),
                      ReportsOut(Out(setup, init)) + WroteReports(State(setup, init), Poll(accepted)),
                      Do(State(setup, init), Poll(accepted)).queue, LatchDate(setup, init + [Poll(accepted)]), w', q')
  {
    var c := State(setup, init);
    AlwaysFit(setup, init);
    ChangesSnoc(init, Poll(accepted));
    assert Changes(init + [Poll(accepted)]) == Changes(init);
    var latch, latch' := LatchDate(setup, init), LatchDate(setup, init + [Poll(accepted)]);
    LatchMoves(setup, init, Poll(accepted));
    var moved, snapshot, own := PollLatch(setup.sizes, c, accepted, latch, latch');
    if snapshot != [] { SnapshotInForce(setup, init); }
    w', q' := WriteChronicle(setup, Changes(init), ReportsOut(Out(setup, init)), c.queue, moved, snapshot, own, latch,
                             latch', w, q);
  }

  /** What a poll writes, as far as the dates are concerned. */
  lemma {:induction false} PollLatch(sizes: Sizes, c: Central, accepted: bool, latch: Option<nat>, latch': Option<nat>)
    returns (moved: seq<Report>, snapshot: seq<Report>, own: seq<Report>)
    requires FitToPack(sizes, c) && sizes.Valid()
    requires latch' == None || (latch' == latch && Do(c, Poll(accepted)).idle != None)
    ensures WroteReports(c, Poll(accepted)) == moved + snapshot + own && |moved| <= |c.queue|
    ensures Do(c, Poll(accepted)).queue == c.queue[|moved|..]
    ensures forall i :: 0 <= i < |moved| ==> SameButTotals(moved[i], c.queue[i])
    ensures forall i :: 0 <= i < |own| ==> own[i].Mouse?
    ensures latch' == None || (latch' == latch && snapshot == [])
    ensures SnapshotOf(c, Poll(accepted)) == snapshot
    ensures snapshot != [] ==> c.queue == [] && IdleIsFresh(c) && snapshot == c.idle.value.reports
  {
    moved, snapshot, own := PollEffect(sizes, c, accepted);
  }

  lemma {:induction false} WriteChronicle(setup: Setup, changes: seq<Report>, reports: seq<Report>, queue: seq<Report>,
                                          moved: seq<Report>, snapshot: seq<Report>, own: seq<Report>,
                                          latch: Option<nat>, latch': Option<nat>, w: seq<nat>, q: seq<nat>)
    returns (w': seq<nat>, q': seq<nat>)
    requires Chronicle(setup, changes, reports, queue, latch, w, q) && |moved| <= |queue|
    requires forall i :: 0 <= i < |moved| ==> SameButTotals(moved[i], queue[i])
    requires forall i :: 0 <= i < |own| ==> own[i].Mouse?
    requires latch' == None || (latch' == latch && snapshot == [])
    requires snapshot != [] ==> queue == [] && latch.Some? && latch.value <= |changes|
                                && forall r :: r in snapshot ==> InForce(setup, changes[..latch.value], r)
    ensures Chronicle(setup, changes, reports + (moved + snapshot + own), queue[|moved|..], latch', w', q')
  {
    if snapshot == [] {
      TakeChronicle(setup, changes, reports, queue, moved, own, latch, latch', w, q);
      assert moved + snapshot + own == moved + own;
      w', q' := TakenDates(w, q, |moved|, |own|), q[|moved|..];
    } else {
      assert moved + snapshot + own == snapshot + own && queue[|moved|..] == [];
      w' := SnapshotChronicle(setup, changes, reports, snapshot, own, latch.value, w, q);
      q' := [];
    }
  }

  /** An idle refresh never undoes a change: while the polls that write a snapshot find the counts
      settled, the keyboard and consumer states written never go back to an older one. */
  lemma {:induction false} NeverUndone(setup: Setup, steps: seq<Step>)
    requires setup.sizes.Valid() && HidRun(setup.sizes, steps) && TimelyPolls(setup, steps)
    ensures NeverOlder(setup, Changes(steps), ReportsOut(Out(setup, steps)))
  {
    var w, q := Chronicled(setup, steps);
    assert forall i :: 0 <= i < |w| ==> w[i] == (w + q)[i];
  }

  /** With at most one poll between each put and its count they do. */
  lemma {:induction false} OnePollSuffices(setup: Setup, steps: seq<Step>)
    requires setup.sizes.Valid() && HidRun(setup.sizes, steps)
    requires forall k :: 0 <= k < |steps| && steps[k].Poll? ==>
            !PolledUncounted(setup, steps[..k]) && WithinTurn(setup, steps[..k])
    ensures TimelyPolls(setup, steps)
  {
    if steps != [] {
      var init, step := steps[..|steps| - 1], steps[|steps| - 1];
      forall k | 0 <= k < |init| && init[k].Poll?
        ensures !PolledUncounted(setup, init[..k]) && WithinTurn(setup, init[..k])
      {
        assert init[..k] == steps[..k];
      }
      OnePollSuffices(setup, init);
      AlwaysFit(setup, init);
      if step.Poll? {
        var moved, snapshot, own := PollEffect(setup.sizes, State(setup, init), step.accepted);
        if snapshot != [] { OnePollSettles(setup, init); }
      }
    }
  }

  // ---- why the window matters ----

  lemma {:induction false} QuietPointer(p: Pointer, room: nat)
    requires p == Pointer([0, 0, 0, 0], 0, false, false, Body(0, [0, 0, 0, 0]))
    ensures p.Shaped() && !p.MotionPending() && p.Take(room, false) == []
  {
    assert p.Totals() == [0, 0, 0, 0];
  }

  /** A key report put but not counted, in front of a latched snapshot of everything released. */
  function Uncounted(setup: Setup, k: seq<Byte>): Central {
    Do(Do(Start(setup), Latch), Change(Keyboard(k)))
  }

  lemma {:induction false} FirstOfTwo(setup: Setup, k: seq<Byte>)
    requires setup.depth > 0 && 1 + |k| <= MAX_PAYLOAD
    ensures var c := Uncounted(setup, k);
      && Wrote(c, Poll(true)) == Some(Replies([Keyboard(k)], [], []))
      && Do(c, Poll(true)) == c.(queue := [])
  {
    var c := Uncounted(setup, k);
    QuietPointer(c.pointer, MAX_PAYLOAD - Length(Keyboard(k)));
    assert c.queue == [Keyboard(k)] && FirstControl(c) == 2;
    assert TakenFrom(true, c.queue, MAX_PAYLOAD, Length(Keyboard(k)), 1) == 1;
    assert Count(c) == 1;
    assert Packed(c, 0) == [] && Packed(c, 1) == [Keyboard(k)];
    JustOne(k);
    assert QueuedPayload(c) == Replies([Keyboard(k)], [], []);
    assert [Keyboard(k)] + [] + [] == [Keyboard(k)] && c.queue[1..] == [];
  }

  lemma {:induction false} JustOne(k: seq<Byte>)
    ensures LastMouse([Keyboard(k)]) == None && TotalLength([Keyboard(k)]) == 1 + |k|
  {
    assert [Keyboard(k)][..0] == [];
    OneLength(Keyboard(k));
  }

  lemma {:induction false} SecondOfTwo(setup: Setup, k: seq<Byte>)
    requires setup.sizes.Valid()
    ensures var c := Uncounted(setup, k).(queue := []);
      Wrote(c, Poll(true)) == Some(Replies([], [Keyboard(Released(setup.sizes.keyboardLength)),
                                                Consumer(Released(setup.sizes.consumerLength))], []))
  {
    var c := Uncounted(setup, k).(queue := []);
    var snapshot := c.idle.value.reports;
    TwoLengths(snapshot[0], snapshot[1]);
    assert snapshot == [snapshot[0], snapshot[1]];
    QuietPointer(c.pointer, MAX_PAYLOAD - TotalLength(snapshot));
    assert FirstControl(c) == 2 && Count(c) == 0 && IdleIsFresh(c);
    assert IdlePayload(c) == Replies([], snapshot, []);
    assert [] + snapshot + [] == snapshot;
  }

  /** Two polls between a put and its count: the queue's report goes out, then the snapshot latched
      before it, and the key is undone. */
  lemma {:induction false} TwoPollsUndo(setup: Setup, k: seq<Byte>, steps: seq<Step>)
    requires steps == [Latch, Change(Keyboard(k)), Poll(true), Poll(true)]
    requires setup.sizes.Valid() && setup.depth > 0
    requires IsHid(setup.sizes, Keyboard(k)) && k != Released(setup.sizes.keyboardLength)
    ensures HidRun(setup.sizes, steps) && Changes(steps) == [Keyboard(k)]
    ensures ReportsOut(Out(setup, steps)) == [Keyboard(k), Keyboard(Released(setup.sizes.keyboardLength)),
                                              Consumer(Released(setup.sizes.consumerLength))]
    ensures !NeverOlder(setup, Changes(steps), ReportsOut(Out(setup, steps)))
  {
    var released := Keyboard(Released(setup.sizes.keyboardLength));
    var consumer := Consumer(Released(setup.sizes.consumerLength));
    UndoneRun(setup, k, steps);
    UndoneChanges(k, steps);
    TwoWritten(Out(setup, steps), Keyboard(k), released, consumer);
    OlderThird(setup, k, consumer);
  }

  lemma {:induction false} TwoWritten(out: seq<Written>, a: Report, b: Report, c: Report)
    requires out == [Replies([a], [], []), Replies([], [b, c], [])]
    ensures ReportsOut(out) == [a, b, c]
  {
    assert out[..1] == [out[0]] && [out[0]][..0] == [];
    assert ReportsOut([]) == [] && ReportsOut([out[0]]) == [a];
  }

  lemma {:induction false} OlderThird(setup: Setup, k: seq<Byte>, consumer: Report)
    requires k != Released(setup.sizes.keyboardLength)
    ensures !NeverOlder(setup, [Keyboard(k)], [Keyboard(k), Keyboard(Released(setup.sizes.keyboardLength)), consumer])
  {
    AfterMore(setup, [], Keyboard(k));
    assert [] + [Keyboard(k)] == [Keyboard(k)];
    var changes, reports := [Keyboard(k)], [Keyboard(k), Keyboard(Released(setup.sizes.keyboardLength)), consumer];
    forall dates | Dated(setup, changes, reports, dates) ensures !Sorted(dates) {
      assert changes[..0] == [] && changes[..1] == changes;
      assert dates[0] == 1 && dates[1] == 0;
    }
  }

  lemma {:induction false} UndoneRun(setup: Setup, k: seq<Byte>, steps: seq<Step>)
    requires setup.sizes.Valid() && setup.depth > 0 && IsHid(setup.sizes, Keyboard(k))
    requires steps == [Latch, Change(Keyboard(k)), Poll(true), Poll(true)]
    ensures Out(setup, steps) == [Replies([Keyboard(k)], [], []),
                                  Replies([], [Keyboard(Released(setup.sizes.keyboardLength)),
                                               Consumer(Released(setup.sizes.consumerLength))], [])]
  {
    FirstWritten(setup, k, steps[..3]);
    SecondOfTwo(setup, k);
    assert steps[..3] + [steps[3]] == steps;
    RunSnoc(setup, steps[..3], steps[3]);
  }

  lemma {:induction false} FirstWritten(setup: Setup, k: seq<Byte>, steps: seq<Step>)
    requires setup.sizes.Valid() && setup.depth > 0 && IsHid(setup.sizes, Keyboard(k))
    requires steps == [Latch, Change(Keyboard(k)), Poll(true)]
    ensures State(setup, steps) == Uncounted(setup, k).(queue := [])
    ensures Out(setup, steps) == [Replies([Keyboard(k)], [], [])]
  {
    UncountedRun(setup, k, steps[..2]);
    FirstOfTwo(setup, k);
    assert steps[..2] + [steps[2]] == steps
        && [] + [Replies([Keyboard(k)], [], [])] == [Replies([Keyboard(k)], [], [])];
    RunSnoc(setup, steps[..2], steps[2]);
  }

  lemma {:induction false} UncountedRun(setup: Setup, k: seq<Byte>, steps: seq<Step>)
    requires steps == [Latch, Change(Keyboard(k))]
    ensures State(setup, steps) == Uncounted(setup, k) && Out(setup, steps) == []
  {
    FirstLatch(setup, steps[..1]);
    assert steps[..1] + [steps[1]] == steps;
    RunSnoc(setup, steps[..1], steps[1]);
  }

  lemma {:induction false} FirstLatch(setup: Setup, steps: seq<Step>)
    requires steps == [Latch]
    ensures State(setup, steps) == Do(Start(setup), Latch) && Out(setup, steps) == []
  {
    assert [] + [steps[0]] == steps;
    RunSnoc(setup, [], steps[0]);
  }

  lemma {:induction false} UndoneChanges(k: seq<Byte>, steps: seq<Step>)
    requires steps == [Latch, Change(Keyboard(k)), Poll(true), Poll(true)]
    ensures Changes(steps) == [Keyboard(k)]
  {
    assert [] + [steps[0]] == steps[..1] && steps[..1] + [steps[1]] == steps[..2];
    assert steps[..2] + [steps[2]] == steps[..3] && steps[..3] + [steps[3]] == steps;
    ChangesSnoc([], steps[0]);
    ChangesSnoc(steps[..1], steps[1]);
    ChangesSnoc(steps[..2], steps[2]);
    ChangesSnoc(steps[..3], steps[3]);
  }

  lemma {:induction false} ChangesSnoc(init: seq<Step>, step: Step)
    ensures Changes(init + [step]) == Changes(init) + if step.Change? && IsState(step.report) then [step.report] else []
  {
    assert (init + [step])[..|init|] == init;
  }
}
