/** The whole relay: motion events on the central to deltas at the host, through stamped totals,
    refused ACK writes, lost and repeated payloads, and a sink that is sometimes busy. */
module RelayChain {
  import opened Common
  import opened Layout
  import opened MotionTotal
  import opened RelayReports
  import opened RelayCentral
  import opened RelayRuns
  import opened RelayCounts
  import opened RelayBytes
  import opened RelayDongle
  import opened RelayHost

  // ---- what the central writes ----

  /** True motion of an axis, unbounded. */
  function TrueTotal(steps: seq<Step>, axis: nat): int {
    if steps == [] then 0
    else
      var step := steps[|steps| - 1];
      TrueTotal(steps[..|steps| - 1], axis) + if step.Motion? && step.axis == axis then step.value else 0
  }

  /** For each payload written, the run before its poll. */
  function Moments(setup: Setup, steps: seq<Step>): (ms: seq<seq<Step>>)
    ensures |ms| == |Out(setup, steps)|
    ensures forall j :: 0 <= j < |ms| ==> ms[j] <= steps
  {
    if steps == [] then []
    else
      var init := steps[..|steps| - 1];
      if Wrote(State(setup, init), steps[|steps| - 1]).Some? then Moments(setup, init) + [init]
        else Moments(setup, init)
  }

  lemma {:induction false} SumMoves(c: Central, step: Step, axis: nat)
    requires c.pointer.Shaped() && axis < AXES
    ensures Do(c, step).pointer.sums[axis]
            == if step.Motion? && step.axis == axis then TotalAdd(c.pointer.sums[axis], step.value)
              else c.pointer.sums[axis]
  {
  }

  lemma {:induction false} SumsAre(setup: Setup, steps: seq<Step>, axis: nat)
    requires axis < AXES
    ensures State(setup, steps).pointer.sums[axis] == Wrap32(TrueTotal(steps, axis))
  {
    if steps != [] {
      var init, step := steps[..|steps| - 1], steps[|steps| - 1];
      SumsAre(setup, init, axis);
      SumMoves(State(setup, init), step, axis);
      AddOn(TrueTotal(init, axis), if step.Motion? && step.axis == axis then step.value else 0);
    }
  }

  lemma {:induction false} AddOn(total: int, value: int)
    ensures TotalAdd(Wrap32(total), value) == Wrap32(total + value)
  {
    Wrap32Add(total, value);
  }

  lemma {:induction false} TotalsAre(setup: Setup, steps: seq<Step>, axis: nat)
    requires axis < AXES
    ensures State(setup, steps).pointer.Totals()[axis] == Low16(TrueTotal(steps, axis))
  {
    SumsAre(setup, steps, axis);
    Wrap16Of32(TrueTotal(steps, axis));
  }

  /** Mouse reports of `rs` carry the true totals after `steps`. */
  ghost predicate CarriesTrue(steps: seq<Step>, rs: seq<Report>) {
    forall i, axis :: 0 <= i < |rs| && rs[i].Mouse? && 0 <= axis < AXES
      ==> |rs[i].body.totals| == AXES && rs[i].body.totals[axis] == Low16(TrueTotal(steps, axis))
  }

  lemma {:induction false} CurrentIsTrue(setup: Setup, steps: seq<Step>, rs: seq<Report>)
    requires CarriesTotals(State(setup, steps), rs)
    ensures CarriesTrue(steps, rs)
  {
    forall axis: nat | axis < AXES
      ensures State(setup, steps).pointer.Totals()[axis] == Low16(TrueTotal(steps, axis))
    {
      TotalsAre(setup, steps, axis);
    }
  }

  lemma {:induction false} WroteIsOffered(c: Central, step: Step)
    requires c.pointer.Shaped() && Wrote(c, step).Some?
    ensures Wrote(c, step).value == Offered(c) || Wrote(c, step).value.Reports() == []
  {
  }

  lemma {:induction false} OfferedIsHid(sizes: Sizes, c: Central)
    requires FitToPack(sizes, c)
    ensures AllHid(sizes, Offered(c).Reports())
  {
    if Count(c) > 0 {
      AllHidAppend(sizes, QueuedPayload(c).queued + [], QueuedPayload(c).pointer);
    } else {
      AllHidAppend(sizes, [] + IdlePayload(c).snapshot, IdlePayload(c).pointer);
    }
  }

  lemma {:induction false} AllHidAppend(sizes: Sizes, a: seq<Report>, b: seq<Report>)
    requires AllHid(sizes, a) && AllHid(sizes, b)
    ensures AllHid(sizes, a + b)
  {
  }

  /** Every payload written is whole HID reports within 48 bytes, and its pointer reports carry the
      true totals of the moment it was packed. */
  lemma {:induction false} WrittenPayloads(setup: Setup, steps: seq<Step>, j: nat)
    requires setup.sizes.Valid() && HidRun(setup.sizes, steps) && j < |Out(setup, steps)|
    ensures AllHid(setup.sizes, Out(setup, steps)[j].Reports())
    ensures TotalLength(Out(setup, steps)[j].Reports()) <= MAX_PAYLOAD
    ensures CarriesTrue(Moments(setup, steps)[j], Out(setup, steps)[j].Reports())
  {
    var init, step := steps[..|steps| - 1], steps[|steps| - 1];
    if j < |Out(setup, init)| {
      WrittenPayloads(setup, init, j);
    } else {
      var c := State(setup, init);
      AlwaysFit(setup, init);
      QueueNotStarved(setup.sizes, c);
      TotalsNotStarved(setup.sizes, c);
      OfferedIsHid(setup.sizes, c);
      CurrentIsTrue(setup, init, Offered(c).Reports());
      WroteIsOffered(c, step);
    }
  }

  lemma {:induction false} WrittenIsLast(setup: Setup, steps: seq<Step>)
    requires setup.sizes.Valid() && HidRun(setup.sizes, steps)
    ensures var last := LastMouse(ReportsOut(Out(setup, steps)));
      State(setup, steps).pointer.written == if last.Some? then last.value else Body(0, [0, 0, 0, 0])
  {
    if steps != [] {
      var init, step := steps[..|steps| - 1], steps[|steps| - 1];
      WrittenIsLast(setup, init);
      AlwaysFit(setup, init);
      OutGrows(setup, steps);
      LastOf(ReportsOut(Out(setup, init)), WroteReports(State(setup, init), step));
      WrittenMoves(setup.sizes, State(setup, init), step);
    }
  }

  lemma {:induction false} WrittenMoves(sizes: Sizes, c: Central, step: Step)
    requires sizes.Valid() && FitToPack(sizes, c)
    ensures var last := LastMouse(WroteReports(c, step));
      Do(c, step).pointer.written == if last.Some? then last.value else c.pointer.written
  {
    if step.Poll? { var moved, snapshot, own := PollEffect(sizes, c, step.accepted); }
  }

  /** The totals the last mouse report the FIFO took carries on an axis, zero before the first. */
  function LastSent(setup: Setup, steps: seq<Step>, axis: nat): I16
    requires axis < AXES
  {
    var last := LastMouse(ReportsOut(Out(setup, steps)));
    if last.Some? && axis < |last.value.totals| then last.value.totals[axis] else 0
  }

  /** Motion is pending exactly while some axis's true motion, mod 2^16, is not what the last pointer
      report written carries. */
  lemma {:induction false} PendingIff(setup: Setup, steps: seq<Step>)
    requires setup.sizes.Valid() && HidRun(setup.sizes, steps)
    ensures State(setup, steps).pointer.MotionPending()
            <==> exists axis :: 0 <= axis < AXES && LastSent(setup, steps, axis) != Low16(TrueTotal(steps, axis))
  {
    var p := State(setup, steps).pointer;
    WrittenIsLast(setup, steps);
    forall axis | 0 <= axis < AXES
      ensures p.Totals()[axis] == Low16(TrueTotal(steps, axis))
      ensures p.written.totals[axis] == LastSent(setup, steps, axis)
    {
      TotalsAre(setup, steps, axis);
    }
    TotalsDiffer(p.Totals(), p.written.totals);
  }

  lemma {:induction false} TotalsDiffer(a: seq<I16>, b: seq<I16>)
    requires |a| == |b|
    ensures a != b <==> exists axis :: 0 <= axis < |a| && b[axis] != a[axis]
  {
  }

  // ---- what reaches the dongle ----

  /** A payload that reaches the dongle: any of those written, late, again or never. */
  datatype Arrival = Arrival(payload: nat, silent: nat -> bool, room: nat -> bool)

  predicate Received(setup: Setup, steps: seq<Step>, arrivals: seq<Arrival>) {
    forall i :: 0 <= i < |arrivals| ==> arrivals[i].payload < |Out(setup, steps)|
  }

  /** Its bytes, split by the dongle. */
  function Unpacked(setup: Setup, steps: seq<Step>, a: Arrival): seq<Report>
    requires a.payload < |Out(setup, steps)|
  {
    Split(setup.sizes, Serialize(setup.sizes, Out(setup, steps)[a.payload].Reports()), 0)
  }

  function Deliveries(setup: Setup, steps: seq<Step>, arrivals: seq<Arrival>): (ds: seq<Delivery>)
    requires Received(setup, steps, arrivals)
    ensures Whole(ds)
  {
    if arrivals == [] then []
    else
      var a := arrivals[|arrivals| - 1];
      SplitIsHid(setup.sizes, Serialize(setup.sizes, Out(setup, steps)[a.payload].Reports()), 0);
      HidIsWhole(setup.sizes, Unpacked(setup, steps, a), a.silent, a.room);
      Deliveries(setup, steps, arrivals[..|arrivals| - 1]) + Arrivals(Unpacked(setup, steps, a), a.silent, a.room)
  }

  /** The true total of an axis behind each delivery: as it stood when its payload was packed. */
  function Truth(setup: Setup, steps: seq<Step>, arrivals: seq<Arrival>, axis: nat): (t: seq<int>)
    requires Received(setup, steps, arrivals)
    ensures |t| == |Deliveries(setup, steps, arrivals)|
  {
    if arrivals == [] then []
    else
      var a := arrivals[|arrivals| - 1];
      Truth(setup, steps, arrivals[..|arrivals| - 1], axis)
      + Repeat(|Unpacked(setup, steps, a)|, TrueTotal(Moments(setup, steps)[a.payload], axis))
  }

  lemma {:induction false} PayloadCarries(sizes: Sizes, moment: seq<Step>, rs: seq<Report>, a: Arrival, axis: nat)
    requires AllHid(sizes, rs) && CarriesTrue(moment, rs) && axis < AXES
    ensures Whole(Arrivals(rs, a.silent, a.room))
    ensures Carries(Arrivals(rs, a.silent, a.room), axis, Repeat(|rs|, TrueTotal(moment, axis)))
  {
  }

  lemma {:induction false} CarriesAppend(a: seq<Delivery>, b: seq<Delivery>, axis: nat, s: seq<int>, t: seq<int>)
    requires axis < AXES && |a| == |s| && |b| == |t| && Whole(a) && Whole(b) && Carries(a, axis, s)
    requires Carries(b, axis, t)
    ensures Whole(a + b) && Carries(a + b, axis, s + t)
  {
  }

  lemma {:induction false} DeliveriesCarry(setup: Setup, steps: seq<Step>, arrivals: seq<Arrival>, axis: nat)
    requires setup.sizes.Valid() && HidRun(setup.sizes, steps) && Received(setup, steps, arrivals) && axis < AXES
    ensures Carries(Deliveries(setup, steps, arrivals), axis, Truth(setup, steps, arrivals, axis))
  {
    if arrivals != [] {
      var init, a := arrivals[..|arrivals| - 1], arrivals[|arrivals| - 1];
      DeliveriesCarry(setup, steps, init, axis);
      WrittenPayloads(setup, steps, a.payload);
      var rs, moment := Out(setup, steps)[a.payload].Reports(), Moments(setup, steps)[a.payload];
      SplitSerialized(setup.sizes, rs);
      PayloadCarries(setup.sizes, moment, rs, a, axis);
      CarriesAppend(Deliveries(setup, steps, init), Arrivals(rs, a.silent, a.room), axis,
                    Truth(setup, steps, init, axis), Repeat(|rs|, TrueTotal(moment, axis)));
    }
  }

  /** A dongle with no baselines yet. */
  predicate Fresh(start: Dongle) { start.Shaped() && forall a :: 0 <= a < AXES ==> !start.tracks[a].valid }

  /** Relay motion conservation, end to end: for every run of the central with any refused writes,
      every loss, repeat and reordering of payloads, every silence and every refusal of the sink, the
      deltas the host took on an axis since the last silence sum to the true motion between the first
      and the last committed total, while committed totals are within the cap of each other. */
  lemma {:induction false} RelayConservation(setup: Setup, steps: seq<Step>, arrivals: seq<Arrival>, start: Dongle,
                                             axis: nat)
    requires setup.sizes.Valid() && HidRun(setup.sizes, steps) && Received(setup, steps, arrivals) && axis < AXES
    requires Fresh(start)
    requires Close(Committed(start, Deliveries(setup, steps, arrivals), Truth(setup, steps, arrivals, axis)))
    ensures var ds := Deliveries(setup, steps, arrivals);
      var c := Committed(start, ds, Truth(setup, steps, arrivals, axis));
      Forwarded(start, ds, axis) == if c == [] then 0 else c[|c| - 1] - c[0]
  {
    DeliveriesCarry(setup, steps, arrivals, axis);
    HostMotion(start, Deliveries(setup, steps, arrivals), axis, Truth(setup, steps, arrivals, axis));
  }

  // ---- catching up ----

  lemma {:induction false} CommittedSplit(start: Dongle, ds: seq<Delivery>, x: Delivery, truth: seq<int>, t: int)
    requires start.Shaped() && Whole(ds) && WholeReport(x.report) && |truth| == |ds|
    ensures Whole(ds + [x])
    ensures Committed(start, ds + [x], truth + [t])
            == (if Resets(x) then [] else Committed(start, ds, truth))
                + (if Commits(After(start, ds), x) then [t] else [])
  {
    assert (ds + [x])[..|ds|] == ds && (truth + [t])[..|ds|] == truth;
  }

  /** The last total committed is `t`. */
  predicate Ends(start: Dongle, ds: seq<Delivery>, truth: seq<int>, t: int)
    requires start.Shaped() && Whole(ds) && |truth| == |ds|
  {
    var c := Committed(start, ds, truth);
    c != [] && c[|c| - 1] == t
  }

  /** So, while no two committed totals were further apart than the cap, the host has all the motion from
      the first of them to `t`. */
  predicate Regained(start: Dongle, ds: seq<Delivery>, truth: seq<int>, axis: nat, t: int)
    requires start.Shaped() && Whole(ds) && |truth| == |ds| && axis < AXES
  {
    var c := Committed(start, ds, truth);
    Ends(start, ds, truth, t) && (Close(c) ==> Forwarded(start, ds, axis) == t - c[0])
  }

  lemma {:induction false} EndsMore(start: Dongle, ds: seq<Delivery>, x: Delivery, truth: seq<int>, t: int)
    requires start.Shaped() && Whole(ds) && WholeReport(x.report) && |truth| == |ds|
    requires if x.report.Mouse? then x.room else Ends(start, ds, truth, t)
    ensures Whole(ds + [x]) && Ends(start, ds + [x], truth + [t], t)
  {
    CommittedSplit(start, ds, x, truth, t);
  }

  /** A payload with a pointer report, and room for all of it: its totals are committed. */
  lemma {:induction false} PayloadCommits(start: Dongle, ds: seq<Delivery>, truth: seq<int>, rs: seq<Report>,
                                          a: Arrival, t: int)
    requires start.Shaped() && Whole(ds) && |truth| == |ds| && Whole(Arrivals(rs, a.silent, a.room))
    requires LastMouse(rs).Some? && forall i: nat :: a.room(i)
    ensures Whole(ds + Arrivals(rs, a.silent, a.room))
    ensures Ends(start, ds + Arrivals(rs, a.silent, a.room), truth + Repeat(|rs|, t), t)
  {
    var n := |rs| - 1;
    var init, x := Arrivals(rs[..n], a.silent, a.room), Delivery(rs[n], a.silent(n), a.room(n));
    ArrivalsSnoc(rs, a);
    if !rs[n].Mouse? { PayloadCommits(start, ds, truth, rs[..n], a, t); }
    PayloadMore(start, ds, init, x, truth, Repeat(n, t), t);
  }

  lemma {:induction false} PayloadMore(start: Dongle, ds: seq<Delivery>, init: seq<Delivery>, x: Delivery,
                                       truth: seq<int>, more: seq<int>, t: int)
    requires start.Shaped() && Whole(ds) && Whole(init) && WholeReport(x.report)
    requires |truth| == |ds| && |more| == |init|
    requires if x.report.Mouse? then x.room else Ends(start, ds + init, truth + more, t)
    ensures Whole(ds + (init + [x])) && Ends(start, ds + (init + [x]), truth + (more + [t]), t)
  {
    EndsMore(start, ds + init, x, truth + more, t);
    assert (ds + init) + [x] == ds + (init + [x]);
    assert (truth + more) + [t] == truth + (more + [t]);
  }

  lemma {:induction false} ArrivalsSnoc(rs: seq<Report>, a: Arrival)
    requires rs != [] && Whole(Arrivals(rs, a.silent, a.room))
    ensures var n := |rs| - 1;
      && Arrivals(rs, a.silent, a.room)
            == Arrivals(rs[..n], a.silent, a.room) + [Delivery(rs[n], a.silent(n), a.room(n))]
      && Whole(Arrivals(rs[..n], a.silent, a.room)) && WholeReport(rs[n])
  {
    var n := |rs| - 1;
    var all := Arrivals(rs, a.silent, a.room);
    assert all[n] == Delivery(rs[n], a.silent(n), a.room(n));
    forall i | 0 <= i < n ensures WholeReport(rs[..n][i]) { assert all[i].report == rs[i]; }
  }

  /** The next reply carries a pointer report: totals have moved, or a refresh is due and nothing queued. */
  predicate PointerDue(c: Central)
    requires c.pointer.Shaped()
  {
    c.pointer.MotionPending() || (c.pointer.refresh && c.queue == [])
  }

  lemma {:induction false} DueIsOffered(sizes: Sizes, c: Central)
    requires sizes.Valid() && FitToPack(sizes, c) && PointerDue(c)
    ensures LastMouse(Offered(c).Reports()).Some?
  {
    TotalsNotStarved(sizes, c);
    if !c.pointer.MotionPending() {
      IdleFits(sizes, c);
      var w := IdlePayload(c);
      LastOf([] + w.snapshot, w.pointer);
      LastMouseOne(w.pointer);
    }
  }

  lemma {:induction false} LastMouseOne(rs: seq<Report>)
    requires |rs| == 1 && rs[0].Mouse?
    ensures LastMouse(rs).Some?
  {
  }

  /** Whatever was lost or refused before, the next reply that gets through makes up for it: once a
      poll with totals moved, or the next refresh, is written, received, and taken by the sink, the host
      has all the motion there has been since its baseline. */
  lemma {:induction false} CaughtUp(setup: Setup, steps: seq<Step>, arrivals: seq<Arrival>, last: Arrival,
                                    start: Dongle, axis: nat)
    requires setup.sizes.Valid() && HidRun(setup.sizes, steps) && axis < AXES && Fresh(start)
    requires FirstControl(State(setup, steps)) == 2 && PointerDue(State(setup, steps))
    requires Received(setup, steps, arrivals) && last.payload == |Out(setup, steps)| && forall i: nat :: last.room(i)
    ensures var run, all := steps + [Poll(true)], arrivals + [last];
      && Received(setup, run, all)
      && Regained(start, Deliveries(setup, run, all), Truth(setup, run, all, axis), axis, TrueTotal(run, axis))
  {
    var run, all := steps + [Poll(true)], arrivals + [last];
    AlwaysFit(setup, steps);
    DueIsOffered(setup.sizes, State(setup, steps));
    PollWrites(setup, steps);
    LastForwarded(setup, run, steps, arrivals, last, Offered(State(setup, steps)).Reports(), start, axis);
    assert run[..|steps|] == steps;
  }

  lemma {:induction false} LastForwarded(setup: Setup, run: seq<Step>, moment: seq<Step>, arrivals: seq<Arrival>,
                                         last: Arrival, rs: seq<Report>, start: Dongle, axis: nat)
    requires setup.sizes.Valid() && HidRun(setup.sizes, run) && Received(setup, run, arrivals) && axis < AXES
    requires Fresh(start)
    requires last.payload < |Out(setup, run)| && forall i: nat :: last.room(i)
    requires rs == Out(setup, run)[last.payload].Reports() && LastMouse(rs).Some?
    requires moment == Moments(setup, run)[last.payload]
    ensures var all := arrivals + [last];
      && Received(setup, run, all)
      && Regained(start, Deliveries(setup, run, all), Truth(setup, run, all, axis), axis, TrueTotal(moment, axis))
  {
    var all, t := arrivals + [last], TrueTotal(moment, axis);
    LastArrives(setup, run, moment, arrivals, last, rs, start, axis);
    DeliveriesCarry(setup, run, all, axis);
    EndsForwarded(start, Deliveries(setup, run, all), Truth(setup, run, all, axis), axis, t);
  }

  lemma {:induction false} EndsForwarded(start: Dongle, ds: seq<Delivery>, truth: seq<int>, axis: nat, t: int)
    requires Fresh(start) && axis < AXES && Whole(ds) && |truth| == |ds| && Carries(ds, axis, truth)
    requires Ends(start, ds, truth, t)
    ensures Regained(start, ds, truth, axis, t)
  {
    if Close(Committed(start, ds, truth)) { HostMotion(start, ds, axis, truth); }
  }

  lemma {:induction false} DeliveriesSnoc(setup: Setup, run: seq<Step>, arrivals: seq<Arrival>, last: Arrival,
                                          axis: nat)
    requires Received(setup, run, arrivals) && last.payload < |Out(setup, run)|
    ensures var all, rs := arrivals + [last], Unpacked(setup, run, last);
      && Received(setup, run, all)
      && Deliveries(setup, run, all) == Deliveries(setup, run, arrivals) + Arrivals(rs, last.silent, last.room)
      && Truth(setup, run, all, axis)
         == Truth(setup, run, arrivals, axis) + Repeat(|rs|, TrueTotal(Moments(setup, run)[last.payload], axis))
  {
    assert (arrivals + [last])[..|arrivals|] == arrivals;
  }

  /** The payload written at `moment`, `rs`, arrives last and whole. */
  lemma {:induction false} LastArrives(setup: Setup, run: seq<Step>, moment: seq<Step>, arrivals: seq<Arrival>,
                                       last: Arrival,
                                       rs: seq<Report>, start: Dongle, axis: nat)
    requires setup.sizes.Valid() && HidRun(setup.sizes, run) && Received(setup, run, arrivals) && axis < AXES
    requires Fresh(start)
    requires last.payload < |Out(setup, run)| && forall i: nat :: last.room(i)
    requires rs == Out(setup, run)[last.payload].Reports() && LastMouse(rs).Some?
    requires moment == Moments(setup, run)[last.payload]
    ensures var all := arrivals + [last];
      && Received(setup, run, all)
      && Ends(start, Deliveries(setup, run, all), Truth(setup, run, all, axis), TrueTotal(moment, axis))
  {
    WrittenPayloads(setup, run, last.payload);
    SplitSerialized(setup.sizes, rs);
    DeliveriesSnoc(setup, run, arrivals, last, axis);
    DeliveriesCarry(setup, run, arrivals, axis);
    PayloadCarries(setup.sizes, moment, rs, last, axis);
    PayloadCommits(start, Deliveries(setup, run, arrivals), Truth(setup, run, arrivals, axis), rs, last,
                   TrueTotal(moment, axis));
  }

  lemma {:induction false} HidRunMore(sizes: Sizes, steps: seq<Step>)
    requires HidRun(sizes, steps)
    ensures HidRun(sizes, steps + [Poll(true)])
  {
  }

  lemma {:induction false} PollWrites(setup: Setup, steps: seq<Step>)
    requires setup.sizes.Valid() && HidRun(setup.sizes, steps)
    requires FirstControl(State(setup, steps)) == 2 && Offered(State(setup, steps)).Reports() != []
    ensures var run := steps + [Poll(true)];
      && HidRun(setup.sizes, run)
      && Out(setup, run) == Out(setup, steps) + [Offered(State(setup, steps))]
      && Moments(setup, run) == Moments(setup, steps) + [steps]
  {
    ControlPair(setup, steps);
    HidRunMore(setup.sizes, steps);
    RunSnoc(setup, steps, Poll(true));
    assert (steps + [Poll(true)])[..|steps|] == steps;
  }

  /** The same of the states: once a reply with the idle snapshot is written, received, and taken by the
      sink, the host was last told the keyboard and consumer states of the central's latch, and if a
      pointer report was due the buttons held; and the dongle keeps what the host was told. */
  lemma {:induction false} StatesCaughtUp(setup: Setup, steps: seq<Step>, arrivals: seq<Arrival>, last: Arrival,
                                          start: Dongle)
    requires setup.sizes.Valid() && HidRun(setup.sizes, steps) && start.Shaped()
    requires FirstControl(State(setup, steps)) == 2 && State(setup, steps).queue == []
    requires IdleIsFresh(State(setup, steps))
    requires Received(setup, steps, arrivals) && last.payload == |Out(setup, steps)| && forall i: nat :: last.room(i)
    ensures var run, all := steps + [Poll(true)], arrivals + [last];
      && Received(setup, run, all)
      && var host, latched := Host(start, Deliveries(setup, run, all)), State(setup, Latched(steps));
         && ToldKeyboard(start.keyboard, host) == latched.keyboard
         && ToldConsumer(start.consumer, host) == latched.consumer
         && (PointerDue(State(setup, steps)) ==>
               ToldButtons(start.buttons, host) == State(setup, steps).pointer.buttons)
         && InStep(start, host, After(start, Deliveries(setup, run, all)))
  {
    var run, rs := steps + [Poll(true)], Offered(State(setup, steps)).Reports();
    AlwaysFit(setup, steps);
    SnapshotAtLatch(setup, steps);
    var own := IdleOffered(setup.sizes, State(setup, steps));
    PollWrites(setup, steps);
    WrittenPayloads(setup, run, last.payload);
    SplitSerialized(setup.sizes, rs);
    DeliveriesSnoc(setup, run, arrivals, last, 0);
    StatesArrive(start, Deliveries(setup, run, arrivals), State(setup, steps).idle.value.reports, own, last);
    HostInStep(start, Deliveries(setup, run, arrivals + [last]));
  }

  /** With nothing queued a poll offers the fresh snapshot, and on top of it the held buttons if due. */
  lemma {:induction false} IdleOffered(sizes: Sizes, c: Central) returns (own: seq<Report>)
    requires sizes.Valid() && FitToPack(sizes, c) && c.queue == [] && IdleIsFresh(c)
    ensures Offered(c).Reports() == c.idle.value.reports + own && |own| <= 1
    ensures forall i :: 0 <= i < |own| ==> IsHid(sizes, own[i]) && own[i].Mouse?
    ensures own != [] ==> own[0].body.buttons == c.pointer.buttons
    ensures PointerDue(c) ==> own != []
  {
    own := IdlePayload(c).pointer;
    IdleFits(sizes, c);
    assert [] + c.idle.value.reports == c.idle.value.reports;
  }

  /** The two states and perhaps a pointer report arrive, and the sink has room for all. */
  lemma {:induction false} StatesArrive(start: Dongle, ds: seq<Delivery>, states: seq<Report>, own: seq<Report>,
                                        a: Arrival)
    requires start.Shaped() && Whole(ds) && forall i: nat :: a.room(i)
    requires |states| == 2 && states[0].Keyboard? && states[1].Consumer?
    requires |own| <= 1 && forall i :: 0 <= i < |own| ==> own[i].Mouse? && WholeReport(own[i])
    ensures Whole(ds + Arrivals(states + own, a.silent, a.room))
    ensures var d := After(start, ds + Arrivals(states + own, a.silent, a.room));
      && d.keyboard == states[0].rest && d.consumer == states[1].rest
      && (own != [] ==> d.buttons == own[0].body.buttons)
  {
    var one := Delivery(states[0], a.silent(0), true);
    var two := Delivery(states[1], a.silent(1), true);
    TwoArrive(start, ds, one, two);
    if own == [] {
      assert Arrivals(states + own, a.silent, a.room) == [one, two];
    } else {
      var three := Delivery(own[0], a.silent(2), true);
      assert Arrivals(states + own, a.silent, a.room) == [one, two] + [three];
      OneArrives(start, ds + [one, two], three);
      assert (ds + [one, two]) + [three] == ds + ([one, two] + [three]);
    }
  }

  lemma {:induction false} TwoArrive(start: Dongle, ds: seq<Delivery>, one: Delivery, two: Delivery)
    requires start.Shaped() && Whole(ds) && one.report.Keyboard? && one.room && two.report.Consumer? && two.room
    ensures Whole(ds + [one, two])
    ensures var d := After(start, ds + [one, two]); d.keyboard == one.report.rest && d.consumer == two.report.rest
  {
    OneArrives(start, ds, one);
    OneArrives(start, ds + [one], two);
    assert ds + [one] + [two] == ds + [one, two];
  }

  lemma {:induction false} OneArrives(start: Dongle, ds: seq<Delivery>, x: Delivery)
    requires start.Shaped() && Whole(ds) && WholeReport(x.report) && x.room
    ensures Whole(ds + [x]) && Shows(After(start, ds), x.report, After(start, ds + [x]))
  {
    DeliverSnoc(start, ds, x);
    Shown(After(start, ds), x);
  }

  /** The dongle `d` shows the states of a report it took, and the others as before. */
  predicate Shows(before: Dongle, r: Report, d: Dongle) {
    && d.keyboard == (if r.Keyboard? then r.rest else before.keyboard)
    && d.consumer == (if r.Consumer? then r.rest else before.consumer)
    && d.buttons == (if r.Mouse? then r.body.buttons else before.buttons)
  }

  lemma {:induction false} Shown(d: Dongle, x: Delivery)
    requires d.Shaped() && WholeReport(x.report) && x.room
    ensures Shows(d, x.report, Deliver(d, x).0)
  {
  }

  lemma {:induction false} ControlPair(setup: Setup, steps: seq<Step>)
    ensures |State(setup, steps).control| == 2
  {
    if steps != [] {
      ControlPair(setup, steps[..|steps| - 1]);
      ControlStays(State(setup, steps[..|steps| - 1]), steps[|steps| - 1]);
    }
  }

  lemma {:induction false} ControlStays(c: Central, step: Step)
    requires c.pointer.Shaped()
    ensures |Do(c, step).control| == |c.control|
  {
  }
}
