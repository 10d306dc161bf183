/** What the central sends on for each axis: live events and heals together
    (src/central_input.c:137-151, src/central_input.c:251-300). */
module MotionEvents {
  import opened Common
  import opened MotionTotal
  import opened MotionTable

  /** What reaches the central of motion: an event with a total, a keepalive with the totals it lists,
      which is looked at only in a quiet moment, or a staleness reset. */
  datatype Input = Live(axis: Axis, total: int) | Keepalive(quiet: bool, listed: seq<Listed>) | Stale

  /** The table after one input, and the motion events sent on for it. */
  function Emits(t: map<Axis, Track>, i: Input, capacity: nat): (map<Axis, Track>, seq<Heal>) {
    match i
    case Live(axis, total) => var r := TotalToDelta(t, axis, total, capacity); (r.0, [Heal(axis, r.1)])
    case Keepalive(quiet, listed) => if quiet then HealAll(t, listed) else (t, [])
    case Stale => (map[], [])
  }

  function TableAfter(inputs: seq<Input>, capacity: nat): map<Axis, Track> {
    if inputs == [] then map[]
    else Emits(TableAfter(inputs[..|inputs| - 1], capacity), inputs[|inputs| - 1], capacity).0
  }

  /** Everything sent on since the last reset. */
  function SentSince(inputs: seq<Input>, capacity: nat): seq<Heal> {
    if inputs == [] || inputs[|inputs| - 1].Stale? then []
    else
      var init, last := inputs[..|inputs| - 1], inputs[|inputs| - 1];
      SentSince(init, capacity) + Emits(TableAfter(init, capacity), last, capacity).1
  }

  /** The motion of one axis in what was sent on. */
  function Moved(sent: seq<Heal>, axis: Axis): int {
    if sent == [] then 0
    else
      var last := sent[|sent| - 1];
      Moved(sent[..|sent| - 1], axis) + if last.axis == axis then last.delta else 0
  }

  lemma {:induction false} MovedAppend(a: seq<Heal>, b: seq<Heal>, axis: Axis)
    ensures Moved(a + b, axis) == Moved(a, axis) + Moved(b, axis)
  {
    if b == [] {
      assert a + b == a;
    } else {
      assert (a + b)[..|a + b| - 1] == a + b[..|b| - 1];
      MovedAppend(a, b[..|b| - 1], axis);
    }
  }

  lemma {:induction false} MovedOne(h: Heal, axis: Axis)
    ensures Moved([h], axis) == if h.axis == axis then h.delta else 0
  {
    assert [h][..0] == [];
  }

  // ---- as samples ----

  function Listing(listed: seq<Listed>): seq<Event> {
    if listed == [] then []
    else
      var last := listed[|listed| - 1];
      Listing(listed[..|listed| - 1]) + [Sampled(AxisSample(last.axis, Sample(last.shortTotal, true)))]
  }

  /** The samples an input brings to the table. */
  function EventsOf(i: Input): seq<Event> {
    match i
    case Live(axis, total) => [Sampled(AxisSample(axis, Sample(total, false)))]
    case Keepalive(quiet, listed) => if quiet then Listing(listed) else []
    case Stale => [Event.Reset]
  }

  function Events(inputs: seq<Input>): seq<Event> {
    if inputs == [] then [] else Events(inputs[..|inputs| - 1]) + EventsOf(inputs[|inputs| - 1])
  }

  lemma {:induction false} EventSnoc(events: seq<Event>, e: Event, capacity: nat, axis: Axis)
    ensures After(events + [e], capacity)
            == match e case Reset => map[] case Sampled(s) => Take(After(events, capacity), s, capacity).0
    ensures ForwardedSince(events + [e], capacity, axis)
            == match e
               case Reset => 0
               case Sampled(s) => ForwardedSince(events, capacity, axis)
                                  + if s.axis == axis then Take(After(events, capacity), s, capacity).1 else 0
  {
    assert (events + [e])[..|events|] == events;
  }

  /** A listing heals the table as its entries do in turn, and what it sends is what they forward. */
  lemma {:induction false} ListingHeals(events: seq<Event>, listed: seq<Listed>, capacity: nat, axis: Axis)
    ensures var r := HealAll(After(events, capacity), listed);
      && After(events + Listing(listed), capacity) == r.0
      && ForwardedSince(events + Listing(listed), capacity, axis)
         == ForwardedSince(events, capacity, axis) + Moved(r.1, axis)
  {
    if listed == [] {
      assert events + Listing(listed) == events;
    } else {
      var init, last := listed[..|listed| - 1], listed[|listed| - 1];
      var before, s := HealAll(After(events, capacity), init), AxisSample(last.axis, Sample(last.shortTotal, true));
      ListingHeals(events, init, capacity, axis);
      EventSnoc(events + Listing(init), Sampled(s), capacity, axis);
      assert events + Listing(listed) == (events + Listing(init)) + [Sampled(s)];
      var healed := HealAt(before.0, last.axis, last.shortTotal);
      MovedAppend(before.1, if healed.1 != 0 then [Heal(last.axis, healed.1)] else [], axis);
      MovedOne(Heal(last.axis, healed.1), axis);
    }
  }

  /** What was sent on for an axis since the last reset is what its samples forward. */
  lemma {:induction false} SentIsForwarded(inputs: seq<Input>, capacity: nat, axis: Axis)
    ensures TableAfter(inputs, capacity) == After(Events(inputs), capacity)
    ensures Moved(SentSince(inputs, capacity), axis) == ForwardedSince(Events(inputs), capacity, axis)
  {
    if inputs != [] {
      var init, last := inputs[..|inputs| - 1], inputs[|inputs| - 1];
      SentIsForwarded(init, capacity, axis);
      MovedAppend(SentSince(init, capacity), Emits(TableAfter(init, capacity), last, capacity).1, axis);
      match last
      case Live(a, total) =>
        EventSnoc(Events(init), Sampled(AxisSample(a, Sample(total, false))), capacity, axis);
        MovedOne(Heal(a, TotalToDelta(TableAfter(init, capacity), a, total, capacity).1), axis);
      case Keepalive(quiet, listed) =>
        if quiet { ListingHeals(Events(init), listed, capacity, axis); }
        else { assert Events(init) + [] == Events(init); }
      case Stale => EventSnoc(Events(init), Event.Reset, capacity, axis);
    }
  }

  /** From the peripheral's slots to what the central sends on: whatever was lost, late, healed or reset,
      live deltas and heals of an axis sum to its true motion between the first and the last total taken
      since the reset. */
  lemma {:induction false} SlotsToHost(ds: seq<AxisDelta>, slots: nat, arrived: seq<Arrival>, inputs: seq<Input>,
                                       capacity: nat, axis: Axis)
    requires Sendable(ds, slots, axis, arrived)
    requires OnAxis(SinceReset(Events(inputs)), axis) == SentSamples(ds, slots, axis, arrived)
    requires axis in TableAfter(inputs, capacity)
    requires Close(Taken(TrueReadings(DeltasOf(ds, axis), OwnMoments(ds, axis, arrived))))
    ensures var taken := Taken(TrueReadings(DeltasOf(ds, axis), OwnMoments(ds, axis, arrived)));
      Moved(SentSince(inputs, capacity), axis) == if taken == [] then 0 else taken[|taken| - 1] - taken[0]
  {
    SentIsForwarded(inputs, capacity, axis);
    SlotsToTable(ds, slots, arrived, Events(inputs), capacity, axis);
  }

  // ---- one keepalive ----

  /** The true totals listed for an axis, after the one its baseline stands for. */
  function Truth(listed: seq<Listed>, truth: seq<int>, base: int, axis: Axis): (t: seq<int>)
    requires |truth| == |listed|
    ensures t != []
  {
    if listed == [] then [base]
    else
      var n := |listed| - 1;
      Truth(listed[..n], truth[..n], base, axis) + if listed[n].axis == axis then [truth[n]] else []
  }

  lemma {:induction false} CloseSplit(taken: seq<int>, next: int)
    requires Close(taken + [next]) && taken != []
    ensures Close(taken) && Near(taken[|taken| - 1], next)
  {
    var all := taken + [next];
    assert forall i :: 0 <= i < |taken| ==> taken[i] == all[i];
    assert Near(all[|taken| - 1], all[|taken|]);
  }

  lemma {:induction false} HealedNear(track: Track, base: int, total: int)
    requires StandsFor(track, base) && Near(base, total)
    ensures var r := TrackShortDelta(track, Wrap16(total)); StandsFor(r.0, total) && r.1 == total - base
  {
    ReceiveNear(track, base, Reading(total, true));
  }

  /** A keepalive's heals make up for an axis's lost motion: they sum to the change of its true total. */
  lemma {:induction false} HealsRecover(t: map<Axis, Track>, listed: seq<Listed>, truth: seq<int>, base: int,
                                        axis: Axis)
    requires |truth| == |listed| && axis in t && StandsFor(t[axis], base)
    requires forall i :: 0 <= i < |listed| && listed[i].axis == axis ==> listed[i].shortTotal == Wrap16(truth[i])
    requires Close(Truth(listed, truth, base, axis))
    ensures Recovered(HealAll(t, listed), base, Truth(listed, truth, base, axis), axis)
  {
    if listed != [] {
      var n := |listed| - 1;
      var before, totals := HealAll(t, listed[..n]), Truth(listed[..n], truth[..n], base, axis);
      if listed[n].axis == axis { CloseSplit(totals, truth[n]); } else { assert totals + [] == totals; }
      HealsRecover(t, listed[..n], truth[..n], base, axis);
      HealRecovers(before, listed[n], truth[n], base, totals, axis);
    }
  }

  /** The baseline stands for the last of `totals`, and what was sent moves the axis there from `base`. */
  ghost predicate Recovered(r: (map<Axis, Track>, seq<Heal>), base: int, totals: seq<int>, axis: Axis) {
    && totals != [] && axis in r.0 && StandsFor(r.0[axis], totals[|totals| - 1])
    && Moved(r.1, axis) == totals[|totals| - 1] - base
  }

  lemma {:induction false} HealRecovers(before: (map<Axis, Track>, seq<Heal>), item: Listed, total: int, base: int,
                                        totals: seq<int>, axis: Axis)
    requires Recovered(before, base, totals, axis)
    requires item.axis == axis ==> item.shortTotal == Wrap16(total) && Near(totals[|totals| - 1], total)
    ensures var healed := HealAt(before.0, item.axis, item.shortTotal);
      Recovered((healed.0, before.1 + if healed.1 != 0 then [Heal(item.axis, healed.1)] else []), base,
                totals + (if item.axis == axis then [total] else []), axis)
  {
    var healed := HealAt(before.0, item.axis, item.shortTotal);
    MovedAppend(before.1, if healed.1 != 0 then [Heal(item.axis, healed.1)] else [], axis);
    MovedOne(Heal(item.axis, healed.1), axis);
    if item.axis == axis { HealedNear(before.0[axis], totals[|totals| - 1], total); }
  }

  /** Each of them moves an axis that was tracked. */
  lemma {:induction false} HealsMove(t: map<Axis, Track>, listed: seq<Listed>, i: nat)
    requires i < |HealAll(t, listed).1|
    ensures HealAll(t, listed).1[i].delta != 0 && HealAll(t, listed).1[i].axis in t
    ensures HealAll(t, listed).0.Keys == t.Keys
  {
    if listed != [] {
      var init := listed[..|listed| - 1];
      KeepsKeys(t, init);
      if i < |HealAll(t, init).1| { HealsMove(t, init, i); }
    }
    KeepsKeys(t, listed);
  }

  lemma {:induction false} KeepsKeys(t: map<Axis, Track>, listed: seq<Listed>)
    ensures HealAll(t, listed).0.Keys == t.Keys
  {
    if listed != [] { KeepsKeys(t, listed[..|listed| - 1]); }
  }
}
