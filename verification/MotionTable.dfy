/** Motion totals per axis: the peripheral's slots (src/esb_peripheral.c:67-126) and the central's
    track table with its keepalive heal (src/central_input.c:112-151, src/central_input.c:251-300). */
module MotionTable {
  import opened Common
  import opened MotionTotal

  datatype Axis = Axis(reg: Byte, code: Byte)

  // ---- a table of slots as a map ----

  datatype Slot<T> = Slot(used: bool, axis: Axis, value: T)

  ghost predicate Unique<T>(slots: seq<Slot<T>>) {
    forall i, j :: 0 <= i < j < |slots| && slots[i].used && slots[j].used ==> slots[i].axis != slots[j].axis
  }

  ghost predicate Uses<T>(slots: seq<Slot<T>>, axis: Axis) {
    exists i :: 0 <= i < |slots| && slots[i].used && slots[i].axis == axis
  }

  lemma {:induction false} UsesInit<T>(slots: seq<Slot<T>>, axis: Axis)
    requires slots != []
    ensures var last := slots[|slots| - 1];
      Uses(slots, axis) <==> Uses(slots[..|slots| - 1], axis) || (last.used && last.axis == axis)
  {
    var init := slots[..|slots| - 1];
    if Uses(slots, axis) {
      var i :| 0 <= i < |slots| && slots[i].used && slots[i].axis == axis;
      assert i < |init| ==> init[i] == slots[i];
    }
    if Uses(init, axis) {
      var i :| 0 <= i < |init| && init[i].used && init[i].axis == axis;
      assert slots[i] == init[i];
    }
  }

  ghost function TableOf<T>(slots: seq<Slot<T>>): (t: map<Axis, T>)
    requires Unique(slots)
    ensures forall a :: a in t <==> Uses(slots, a)
    ensures forall i :: 0 <= i < |slots| && slots[i].used ==> slots[i].axis in t && t[slots[i].axis] == slots[i].value
  {
    if slots == [] then map[]
    else
      var init, last := slots[..|slots| - 1], slots[|slots| - 1];
      assert forall a :: Uses(slots, a) <==> Uses(init, a) || (last.used && last.axis == a) by {
        forall a { UsesInit(slots, a); }
      }
      assert forall i :: 0 <= i < |init| ==> init[i] == slots[i];
      if last.used then TableOf(init)[last.axis := last.value] else TableOf(init)
  }

  function UsedAxes<T>(slots: seq<Slot<T>>): seq<Axis> {
    if slots == [] then []
    else
      var last := slots[|slots| - 1];
      UsedAxes(slots[..|slots| - 1]) + if last.used then [last.axis] else []
  }

  lemma {:induction false} UsedAxesDistinct<T>(slots: seq<Slot<T>>)
    requires Unique(slots)
    ensures Distinct(UsedAxes(slots))
    ensures forall a :: a in UsedAxes(slots) <==> Uses(slots, a)
  {
    if slots != [] {
      var init, last := slots[..|slots| - 1], slots[|slots| - 1];
      UsedAxesDistinct(init);
      forall i | 0 <= i < |init| && init[i].used && last.used
        ensures init[i].axis != last.axis
      {
        assert slots[i] == init[i] && slots[|init|] == last;
      }
      assert last.used ==> !Uses(init, last.axis);
      forall a
        ensures a in UsedAxes(slots) <==> Uses(slots, a)
      {
        UsesInit(slots, a);
      }
    }
  }

  lemma {:induction false} UsedAxesLength<T>(slots: seq<Slot<T>>)
    ensures |UsedAxes(slots)| <= |slots|
    ensures |UsedAxes(slots)| == |slots| <==> forall i :: 0 <= i < |slots| ==> slots[i].used
  {
    if slots != [] {
      var init := slots[..|slots| - 1];
      UsedAxesLength(init);
      assert forall i :: 0 <= i < |init| ==> init[i] == slots[i];
    }
  }

  lemma {:induction false} FullTable<T>(slots: seq<Slot<T>>)
    requires Unique(slots)
    ensures |TableOf(slots)| <= |slots|
    ensures |TableOf(slots)| == |slots| <==> forall i :: 0 <= i < |slots| ==> slots[i].used
  {
    UsedAxesDistinct(slots);
    UsedAxesLength(slots);
    DistinctSize(UsedAxes(slots));
    assert TableOf(slots).Keys == SetOf(UsedAxes(slots)) by {
      assert forall a :: a in TableOf(slots) <==> Uses(slots, a);
    }
    assert |TableOf(slots)| == |TableOf(slots).Keys|;
  }

  lemma {:induction false} PutUnique<T>(slots: seq<Slot<T>>, i: nat, axis: Axis, value: T)
    requires i < |slots| && Unique(slots)
    requires if slots[i].used then slots[i].axis == axis else !Uses(slots, axis)
    ensures Unique(slots[i := Slot(true, axis, value)])
    ensures forall a :: Uses(slots[i := Slot(true, axis, value)], a) <==> Uses(slots, a) || a == axis
  {
    var slots' := slots[i := Slot(true, axis, value)];
    forall a
      ensures Uses(slots', a) <==> Uses(slots, a) || a == axis
    {
      assert slots'[i] == Slot(true, axis, value);
      if Uses(slots, a) && a != axis {
        var j :| 0 <= j < |slots| && slots[j].used && slots[j].axis == a;
        assert slots'[j] == slots[j];
      }
      if Uses(slots', a) && a != axis {
        var j :| 0 <= j < |slots'| && slots'[j].used && slots'[j].axis == a;
        assert slots'[j] == slots[j];
      }
    }
  }

  lemma {:induction false} TableAt<T>(slots: seq<Slot<T>>, a: Axis) returns (i: nat)
    requires Unique(slots) && Uses(slots, a)
    ensures i < |slots| && slots[i].used && slots[i].axis == a
    ensures a in TableOf(slots) && TableOf(slots)[a] == slots[i].value
  {
    i :| 0 <= i < |slots| && slots[i].used && slots[i].axis == a;
  }

  /** Claiming a free slot for a new axis, or writing the slot an axis already has. */
  lemma {:induction false} PutSlot<T>(slots: seq<Slot<T>>, i: nat, axis: Axis, value: T)
    requires i < |slots| && Unique(slots)
    requires if slots[i].used then slots[i].axis == axis else !Uses(slots, axis)
    ensures Unique(slots[i := Slot(true, axis, value)])
    ensures TableOf(slots[i := Slot(true, axis, value)]) == TableOf(slots)[axis := value]
  {
    PutUnique(slots, i, axis, value);
    var t, t' := TableOf(slots), TableOf(slots[i := Slot(true, axis, value)]);
    forall a ensures Updated(t, axis, value, t', a) { PutAt(slots, i, axis, value, a); }
    IsUpdated(t, axis, value, t');
  }

  /** `t'` has for axis `a` what `t` has with `axis` set to `value`. */
  ghost predicate Updated<T>(t: map<Axis, T>, axis: Axis, value: T, t': map<Axis, T>, a: Axis) {
    (a in t' <==> a in t || a == axis) && (a in t' ==> t'[a] == if a == axis then value else t[a])
  }

  lemma {:induction false} IsUpdated<T>(t: map<Axis, T>, axis: Axis, value: T, t': map<Axis, T>)
    requires forall a :: Updated(t, axis, value, t', a)
    ensures t' == t[axis := value]
  {
    assert forall a :: a in t' <==> Updated(t, axis, value, t', a) && a in t[axis := value];
  }

  lemma {:induction false} PutAt<T>(slots: seq<Slot<T>>, i: nat, axis: Axis, value: T, a: Axis)
    requires i < |slots| && Unique(slots) && Unique(slots[i := Slot(true, axis, value)])
    requires if slots[i].used then slots[i].axis == axis else !Uses(slots, axis)
    ensures Updated(TableOf(slots), axis, value, TableOf(slots[i := Slot(true, axis, value)]), a)
  {
    var slots' := slots[i := Slot(true, axis, value)];
    if a == axis {
      assert slots'[i].used && slots'[i].axis == axis;
    } else {
      if Uses(slots, a) {
        var k := TableAt(slots, a);
        assert slots'[k] == slots[k];
      }
      if Uses(slots', a) {
        var j := TableAt(slots', a);
        assert slots[j] == slots'[j];
      }
    }
  }

  // ---- what the central's table means ----

  /** A whole total for an axis; with no slot left the motion is dropped. */
  function TotalToDelta(t: map<Axis, Track>, axis: Axis, total: int, capacity: nat): (map<Axis, Track>, int) {
    if axis !in t && |t| >= capacity then (t, 0)
    else
      var r := TrackDelta(if axis in t then t[axis] else FRESH, total);
      (t[axis := r.0], r.1)
  }

  /** A keepalive's low half for an axis; an axis never seen live is ignored. */
  function HealAt(t: map<Axis, Track>, axis: Axis, shortTotal: int): (map<Axis, Track>, int) {
    if axis !in t then (t, 0)
    else
      var r := TrackShortDelta(t[axis], shortTotal);
      (t[axis := r.0], r.1)
  }

  datatype Listed = Listed(axis: Axis, shortTotal: int)
  datatype Heal = Heal(axis: Axis, delta: int)

  function HealAll(t: map<Axis, Track>, listed: seq<Listed>): (map<Axis, Track>, seq<Heal>) {
    if listed == [] then (t, [])
    else
      var before, last := HealAll(t, listed[..|listed| - 1]), listed[|listed| - 1];
      var r := HealAt(before.0, last.axis, last.shortTotal);
      (r.0, before.1 + if r.1 != 0 then [Heal(last.axis, r.1)] else [])
  }

  // ---- the central's code ----

  class MotionTracks {
    const slots: array<Slot<Track>>

    ghost predicate Valid()
      reads this, slots
    {
      Unique(slots[..])
    }

    ghost function Table(): map<Axis, Track>
      requires Valid()
      reads this, slots
    {
      TableOf(slots[..])
    }

    constructor (capacity: nat)
      ensures Valid() && fresh(slots) && slots.Length == capacity && Table() == map[]
    {
      slots := new Slot<Track>[capacity](i => Slot(false, Axis(0, 0), FRESH));
    }

    method Find(axis: Axis) returns (found: Option<nat>)
      requires Valid()
      ensures found.Some? <==> axis in Table()
      ensures found.Some? ==> found.value < slots.Length && slots[found.value].used && slots[found.value].axis == axis
    {
      for index := 0 to slots.Length
        invariant forall i :: 0 <= i < index ==> !(slots[i].used && slots[i].axis == axis)
      {
        if slots[index].used && slots[index].axis == axis {
          assert slots[..][index].axis == axis;
          return Some(index);
        }
      }
      found := None;
    }

    method Claim(axis: Axis) returns (claimed: Option<nat>)
      requires Valid()
      modifies slots
      ensures Valid()
      ensures claimed.None? <==> axis !in old(Table()) && |old(Table())| >= slots.Length
      ensures claimed.None? ==> Table() == old(Table())
      ensures claimed.Some? ==>
        && claimed.value < slots.Length && slots[claimed.value].used && slots[claimed.value].axis == axis
        && slots[claimed.value].value == (if axis in old(Table()) then old(Table())[axis] else FRESH)
        && Table() == old(Table())[axis := slots[claimed.value].value]
    {
      FullTable(slots[..]);
      claimed := Find(axis);
      if claimed.Some? {
        assert slots[..][claimed.value] == slots[claimed.value];
        return;
      }
      claimed := FirstFree();
      if claimed.Some? {
        Put(claimed.value, axis, FRESH);
      }
    }

    method FirstFree() returns (free: Option<nat>)
      ensures free.None? <==> forall i :: 0 <= i < slots.Length ==> slots[i].used
      ensures free.Some? ==> free.value < slots.Length && !slots[free.value].used
    {
      for index := 0 to slots.Length
        invariant forall i :: 0 <= i < index ==> slots[i].used
      {
        if !slots[index].used {
          return Some(index);
        }
      }
      free := None;
    }

    method Reset()
      requires Valid()
      modifies slots
      ensures Valid() && Table() == map[]
    {
      for index := 0 to slots.Length
        invariant forall i :: 0 <= i < index ==> !slots[i].used
      {
        slots[index] := slots[index].(used := false);
      }
      assert forall a :: !Uses(slots[..], a);
    }

    method Put(index: nat, axis: Axis, track: Track)
      requires Valid() && index < slots.Length
      requires if slots[index].used then slots[index].axis == axis else !Uses(slots[..], axis)
      modifies slots
      ensures Valid() && Table() == old(Table())[axis := track] && slots[index] == Slot(true, axis, track)
    {
      PutSlot(slots[..], index, axis, track);
      slots[index] := Slot(true, axis, track);
      assert slots[..] == old(slots[..])[index := Slot(true, axis, track)];
    }

    method MotionTotalToDelta(axis: Axis, total: int) returns (delta: int)
      requires Valid()
      modifies slots
      ensures Valid() && (Table(), delta) == TotalToDelta(old(Table()), axis, total, slots.Length)
    {
      var claimed := Claim(axis);
      if claimed.None? {
        return 0;
      }
      var r := TrackDelta(slots[claimed.value].value, total);
      Put(claimed.value, axis, r.0);
      assert Table() == old(Table())[axis := r.0];
      delta := r.1;
    }

    method MotionHealAt(axis: Axis, shortTotal: int) returns (delta: int)
      requires Valid()
      modifies slots
      ensures Valid() && (Table(), delta) == HealAt(old(Table()), axis, shortTotal)
    {
      var found := Find(axis);
      if found.None? {
        return 0;
      }
      assert slots[..][found.value] == slots[found.value];
      var r := TrackShortDelta(slots[found.value].value, shortTotal);
      Put(found.value, axis, r.0);
      delta := r.1;
    }

    method HealOne(item: Listed) returns (heal: Option<Heal>)
      requires Valid()
      modifies slots
      ensures Valid() && Table() == HealAt(old(Table()), item.axis, item.shortTotal).0
      ensures heal == HealOf(old(Table()), item)
    {
      var delta := MotionHealAt(item.axis, item.shortTotal);
      heal := if delta != 0 then Some(Heal(item.axis, delta)) else None;
    }

    /** Heals are sent in order, one behind, so that only the last carries the sync flag. */
    method HealLostMotion(quiet: bool, listed: seq<Listed>) returns (sent: seq<Heal>, synced: seq<bool>)
      requires Valid()
      modifies slots
      ensures Valid()
      ensures !quiet ==> sent == [] && Table() == old(Table())
      ensures quiet ==> (Table(), sent) == HealAll(old(Table()), listed)
      ensures synced == if sent == [] then [] else Repeat(|sent| - 1, false) + [true]
    {
      sent, synced := [], [];
      if !quiet {
        return;
      }
      var pending: Option<Heal> := None;
      ghost var was, all: seq<Heal> := Table(), [];
      for index := 0 to |listed|
        invariant Valid() && HealAll(was, listed[..index]) == (Table(), all)
        invariant Sending(all, sent, synced, pending)
      {
        ghost var before := Table();
        var heal := HealOne(listed[index]);
        HealNext(was, listed, index, before, all, Table(), heal);
        SendNext(all, sent, synced, pending, heal);
        all := all + Waiting(heal);
        if heal.Some? {
          sent, synced := sent + Waiting(pending), synced + if pending.Some? then [false] else [];
          pending := heal;
        }
      }
      assert listed[..|listed|] == listed;
      if pending.Some? {
        sent, synced := sent + [pending.value], synced + [true];
      }
    }
  }

  /** All heals so far are sent but the pending one, none of them with the sync flag. */
  ghost predicate Sending(all: seq<Heal>, sent: seq<Heal>, synced: seq<bool>, pending: Option<Heal>) {
    all == sent + Waiting(pending) && (pending.None? ==> sent == []) && synced == Repeat(|sent|, false)
  }

  lemma {:induction false} SendNext(all: seq<Heal>, sent: seq<Heal>, synced: seq<bool>, pending: Option<Heal>,
                                    heal: Option<Heal>)
    requires Sending(all, sent, synced, pending)
    ensures heal.None? ==> Sending(all + Waiting(heal), sent, synced, pending)
    ensures heal.Some? ==> Sending(all + Waiting(heal), sent + Waiting(pending),
                                   synced + (if pending.Some? then [false] else []), heal)
  {
    assert all + [] == all && sent + [] == sent && synced + [] == synced;
  }

  /** What one listed axis sends. */
  function HealOf(t: map<Axis, Track>, item: Listed): Option<Heal> {
    var delta := HealAt(t, item.axis, item.shortTotal).1;
    if delta != 0 then Some(Heal(item.axis, delta)) else None
  }

  lemma {:induction false} HealNext(was: map<Axis, Track>, listed: seq<Listed>, index: nat, before: map<Axis, Track>,
                                    sent: seq<Heal>, after: map<Axis, Track>, heal: Option<Heal>)
    requires index < |listed| && HealAll(was, listed[..index]) == (before, sent)
    requires after == HealAt(before, listed[index].axis, listed[index].shortTotal).0
    requires heal == HealOf(before, listed[index])
    ensures HealAll(was, listed[..index + 1]) == (after, sent + Waiting(heal))
  {
    assert listed[..index + 1][..index] == listed[..index];
  }

  function Waiting(pending: Option<Heal>): seq<Heal> {
    if pending.Some? then [pending.value] else []
  }

  // ---- the peripheral's code ----

  /** Slots fill from the front and are never given back. */
  predicate Front<T>(slots: seq<Slot<T>>) {
    forall i, j :: 0 <= i < j < |slots| && slots[j].used ==> slots[i].used
  }

  lemma {:induction false} FrontFilled<T>(slots: seq<Slot<T>>, index: nat, slot: Slot<T>)
    requires Front(slots) && index < |slots| && (index > 0 ==> slots[index - 1].used) && slot.used
    ensures Front(slots[index := slot])
  {
  }

  class MotionSlots {
    const slots: array<Slot<int>>

    ghost predicate Valid()
      reads this, slots
    {
      && Unique(slots[..])
      && Front(slots[..])
    }

    ghost function Totals(): map<Axis, int>
      requires Valid()
      reads this, slots
    {
      TableOf(slots[..])
    }

    constructor (capacity: nat)
      ensures Valid() && fresh(slots) && slots.Length == capacity && Totals() == map[]
    {
      slots := new Slot<int>[capacity](i => Slot(false, Axis(0, 0), 0));
    }

    method Put(index: nat, axis: Axis, value: int)
      requires Valid() && index < slots.Length && (index > 0 ==> slots[index - 1].used)
      requires if slots[index].used then slots[index].axis == axis else !Uses(slots[..], axis)
      modifies slots
      ensures Valid() && slots[index] == Slot(true, axis, value)
      ensures Totals() == old(Totals())[axis := value]
    {
      ghost var was := slots[..];
      PutSlot(was, index, axis, value);
      FrontFilled(was, index, Slot(true, axis, value));
      slots[index] := Slot(true, axis, value);
      assert slots[..] == was[index := Slot(true, axis, value)];
    }

    /** The axis's slot, claimed at zero when it has none yet. */
    method SlotFor(axis: Axis) returns (slot: Option<nat>)
      requires Valid()
      modifies slots
      ensures Valid()
      ensures slot.None? <==> axis !in old(Totals()) && |old(Totals())| >= slots.Length
      ensures slot.None? ==> Totals() == old(Totals())
      ensures slot.Some? ==>
        && slot.value < slots.Length
        && slots[slot.value] == Slot(true, axis, if axis in old(Totals()) then old(Totals())[axis] else 0)
        && (slot.value > 0 ==> slots[slot.value - 1].used)
        && Totals() == old(Totals())[axis := slots[slot.value].value]
    {
      FullTable(slots[..]);
      var index := Scan(axis);
      if index == slots.Length {
        return None;
      }
      if slots[index].used {
        assert slots[..][index] == slots[index];
      } else {
        Put(index, axis, 0);
      }
      slot := Some(index);
    }

    /** The first slot that is free or the axis's own. */
    method Scan(axis: Axis) returns (index: nat)
      requires Valid()
      ensures index <= slots.Length
      ensures forall i :: 0 <= i < index ==> slots[i].used && slots[i].axis != axis
      ensures index < slots.Length ==> if slots[index].used then slots[index].axis == axis else !Uses(slots[..], axis)
      ensures index == slots.Length ==> !Uses(slots[..], axis)
    {
      index := 0;
      while index < slots.Length && slots[index].used && slots[index].axis != axis
        invariant index <= slots.Length
        invariant forall i :: 0 <= i < index ==> slots[i].used && slots[i].axis != axis
      {
        index := index + 1;
      }
    }

    /** A lossy delta becomes the axis's running total; `None` leaves the event a plain delta. */
    method MotionToTotal(axis: Axis, delta: int) returns (sent: Option<int>)
      requires Valid()
      modifies slots
      ensures Valid()
      ensures sent.None? <==> axis !in old(Totals()) && |old(Totals())| >= slots.Length
      ensures Totals() == Accumulate(old(Totals()), AxisDelta(axis, delta), slots.Length)
      ensures sent.Some? ==> axis in Totals() && sent.value == Totals()[axis]
    {
      var slot := SlotFor(axis);
      if slot.None? {
        return None;
      }
      var total := TotalAdd(slots[slot.value].value, delta);
      Put(slot.value, axis, total);
      assert Totals() == old(Totals())[axis := total];
      sent := Some(total);
    }

    /** What the keepalive lists: every claimed axis once, with its total's low half. */
    method Snapshot() returns (listed: seq<Listed>)
      requires Valid()
      ensures forall i, j :: 0 <= i < j < |listed| ==> listed[i].axis != listed[j].axis
      ensures forall i :: 0 <= i < |listed| ==>
                listed[i].axis in Totals() && listed[i].shortTotal == Wrap16(Totals()[listed[i].axis])
      ensures forall a :: a in Totals() ==> exists i :: 0 <= i < |listed| && listed[i].axis == a
    {
      listed := [];
      for index := 0 to slots.Length
        invariant |listed| <= index && forall i :: 0 <= i < |listed| ==> slots[i].used
        invariant |listed| < index ==> !slots[|listed|].used
        invariant forall i :: 0 <= i < |listed| ==> listed[i] == Listed(slots[i].axis, Wrap16(slots[i].value))
      {
        if slots[index].used {
          listed := listed + [Listed(slots[index].axis, Wrap16(slots[index].value))];
        }
      }
      assert forall i :: 0 <= i < slots.Length ==> slots[..][i] == slots[i];
    }
  }

  // ---- whole runs: the table is one independent track per axis ----

  datatype AxisSample = AxisSample(axis: Axis, sample: Sample)

  function Take(t: map<Axis, Track>, s: AxisSample, capacity: nat): (map<Axis, Track>, int) {
    if s.sample.short then HealAt(t, s.axis, s.sample.value) else TotalToDelta(t, s.axis, s.sample.value, capacity)
  }

  function TableRun(samples: seq<AxisSample>, capacity: nat): map<Axis, Track> {
    if samples == [] then map[]
    else Take(TableRun(samples[..|samples| - 1], capacity), samples[|samples| - 1], capacity).0
  }

  /** The motion forwarded on one axis. */
  function Forwarded(samples: seq<AxisSample>, capacity: nat, axis: Axis): int {
    if samples == [] then 0
    else
      var init, last := samples[..|samples| - 1], samples[|samples| - 1];
      Forwarded(init, capacity, axis)
        + if last.axis == axis then Take(TableRun(init, capacity), last, capacity).1 else 0
  }

  function OnAxis(samples: seq<AxisSample>, axis: Axis): seq<Sample> {
    if samples == [] then []
    else
      var last := samples[|samples| - 1];
      OnAxis(samples[..|samples| - 1], axis) + if last.axis == axis then [last.sample] else []
  }

  ghost predicate Separate(samples: seq<AxisSample>, capacity: nat, axis: Axis) {
    SeparateAt(TableRun(samples, capacity), Forwarded(samples, capacity, axis), OnAxis(samples, axis), capacity, axis)
  }

  ghost predicate SeparateAt(t: map<Axis, Track>, f: int, own: seq<Sample>, capacity: nat, axis: Axis) {
    if axis in t then (t[axis], f) == FeedSamples(own)
    else f == 0 && (|t| >= capacity || FeedSamples(own) == (FRESH, 0))
  }

  lemma {:induction false} SizeOfUpdate(t: map<Axis, Track>, axis: Axis, track: Track)
    ensures |t[axis := track]| >= |t|
  {
    assert t[axis := track].Keys == t.Keys + {axis};
    ProperSubsetSmaller(t.Keys, t[axis := track].Keys);
  }

  lemma {:induction false} AxesSeparate(samples: seq<AxisSample>, capacity: nat, axis: Axis)
    ensures Separate(samples, capacity, axis)
  {
    if samples != [] {
      var init, last := samples[..|samples| - 1], samples[|samples| - 1];
      AxesSeparate(init, capacity, axis);
      SampleSeparate(TableRun(init, capacity), Forwarded(init, capacity, axis), OnAxis(init, axis), last, capacity,
                     axis);
    }
  }

  lemma {:induction false} SampleSeparate(t: map<Axis, Track>, f: int, own: seq<Sample>, s: AxisSample, capacity: nat,
                                          axis: Axis)
    requires SeparateAt(t, f, own, capacity, axis)
    ensures var r, here := Take(t, s, capacity), s.axis == axis;
      SeparateAt(r.0, f + (if here then r.1 else 0), own + (if here then [s.sample] else []), capacity, axis)
  {
    SizeOfUpdate(t, s.axis, Apply(if s.axis in t then t[s.axis] else FRESH, s.sample).0);
    assert (own + [s.sample])[..|own|] == own && own + [] == own;
  }

  // ---- staleness resets ----

  /** The central sees samples, and resets of the whole table after a silence. */
  datatype Event = Sampled(s: AxisSample) | Reset

  function After(events: seq<Event>, capacity: nat): map<Axis, Track> {
    if events == [] then map[]
    else
      match events[|events| - 1]
      case Reset => map[]
      case Sampled(s) => Take(After(events[..|events| - 1], capacity), s, capacity).0
  }

  /** The motion forwarded on one axis since the last reset. */
  function ForwardedSince(events: seq<Event>, capacity: nat, axis: Axis): int {
    if events == [] then 0
    else
      var init := events[..|events| - 1];
      match events[|events| - 1]
      case Reset => 0
      case Sampled(s) =>
        ForwardedSince(init, capacity, axis)
          + if s.axis == axis then Take(After(init, capacity), s, capacity).1 else 0
  }

  function SinceReset(events: seq<Event>): seq<AxisSample> {
    if events == [] then []
    else
      match events[|events| - 1]
      case Reset => []
      case Sampled(s) => SinceReset(events[..|events| - 1]) + [s]
  }

  /** A reset is a fresh start and nothing more. */
  lemma {:induction false} ResetsRestart(events: seq<Event>, capacity: nat, axis: Axis)
    ensures After(events, capacity) == TableRun(SinceReset(events), capacity)
    ensures ForwardedSince(events, capacity, axis) == Forwarded(SinceReset(events), capacity, axis)
  {
    if events != [] && events[|events| - 1].Sampled? {
      var init, s := events[..|events| - 1], events[|events| - 1].s;
      ResetsRestart(init, capacity, axis);
      assert (SinceReset(init) + [s])[..|SinceReset(init)|] == SinceReset(init);
    }
  }

  /** Uplink conservation on a tracked axis since the last reset, among any traffic on the other axes. */
  lemma {:induction false} TrackedAxisConserves(events: seq<Event>, capacity: nat, axis: Axis,
                                                deltas: seq<int>, arrivals: seq<Arrival>)
    requires Happened(deltas, arrivals) && OnAxis(SinceReset(events), axis) == Samples(deltas, arrivals)
    requires axis in After(events, capacity)
    requires Close(Taken(TrueReadings(deltas, arrivals)))
    ensures var taken := Taken(TrueReadings(deltas, arrivals));
      ForwardedSince(events, capacity, axis) == if taken == [] then 0 else taken[|taken| - 1] - taken[0]
  {
    ResetsRestart(events, capacity, axis);
    AxesSeparate(SinceReset(events), capacity, axis);
    UplinkConservation(deltas, arrivals);
  }

  // ---- the peripheral's end ----

  datatype AxisDelta = AxisDelta(axis: Axis, delta: int)

  /** An axis adds to its total, or claims one; with no slot left its motion stays a delta. */
  function Accumulate(t: map<Axis, int>, d: AxisDelta, capacity: nat): map<Axis, int> {
    if d.axis !in t && |t| >= capacity then t
    else t[d.axis := TotalAdd(if d.axis in t then t[d.axis] else 0, d.delta)]
  }

  function SlotsRun(ds: seq<AxisDelta>, capacity: nat): map<Axis, int> {
    if ds == [] then map[] else Accumulate(SlotsRun(ds[..|ds| - 1], capacity), ds[|ds| - 1], capacity)
  }

  function DeltasOf(ds: seq<AxisDelta>, axis: Axis): seq<int> {
    if ds == [] then []
    else
      var last := ds[|ds| - 1];
      DeltasOf(ds[..|ds| - 1], axis) + if last.axis == axis then [last.delta] else []
  }

  /** A slot holds all the motion of its axis; an axis without one never had any, or found the table full. */
  lemma {:induction false} SlotsAccumulate(ds: seq<AxisDelta>, capacity: nat, axis: Axis)
    ensures var t := SlotsRun(ds, capacity);
      if axis in t then t[axis] == Accumulated(DeltasOf(ds, axis)) else DeltasOf(ds, axis) == [] || |t| >= capacity
  {
    if ds != [] {
      var init, last := ds[..|ds| - 1], ds[|ds| - 1];
      SlotsAccumulate(init, capacity, axis);
      var t := SlotsRun(init, capacity);
      SizeOfTotals(t, last.axis, TotalAdd(if last.axis in t then t[last.axis] else 0, last.delta));
      if last.axis == axis {
        AccumulatedMore(DeltasOf(init, axis), last.delta);
      } else {
        assert DeltasOf(ds, axis) == DeltasOf(init, axis);
      }
    }
  }

  lemma {:induction false} SizeOfTotals(t: map<Axis, int>, axis: Axis, total: int)
    ensures |t[axis := total]| >= |t|
  {
    assert t[axis := total].Keys == t.Keys + {axis};
    ProperSubsetSmaller(t.Keys, t[axis := total].Keys);
  }

  lemma {:induction false} AccumulatedMore(deltas: seq<int>, delta: int)
    ensures Accumulated(deltas + [delta]) == TotalAdd(Accumulated(deltas), delta)
  {
    assert (deltas + [delta])[..|deltas|] == deltas;
  }

  lemma {:induction false} DeltasPrefix(ds: seq<AxisDelta>, k: nat, axis: Axis)
    requires k <= |ds|
    ensures DeltasOf(ds[..k], axis) <= DeltasOf(ds, axis)
  {
    if k < |ds| {
      DeltasPrefix(ds[..|ds| - 1], k, axis);
      assert ds[..|ds| - 1][..k] == ds[..k];
    } else {
      assert ds[..k] == ds;
    }
  }

  /** Totals reach the central as they stood after `moment` of the peripheral's events, whole or as the
      keepalive's low half; only a claimed axis is sent. */
  predicate Sendable(ds: seq<AxisDelta>, capacity: nat, axis: Axis, sent: seq<Arrival>) {
    forall i :: 0 <= i < |sent| ==> sent[i].moment <= |ds| && axis in SlotsRun(ds[..sent[i].moment], capacity)
  }

  function SentSample(ds: seq<AxisDelta>, capacity: nat, axis: Axis, a: Arrival): Sample
    requires a.moment <= |ds| && axis in SlotsRun(ds[..a.moment], capacity)
  {
    var total := SlotsRun(ds[..a.moment], capacity)[axis];
    Sample(if a.short then Wrap16(total) else total, a.short)
  }

  function SentSamples(ds: seq<AxisDelta>, capacity: nat, axis: Axis, sent: seq<Arrival>): seq<Sample>
    requires Sendable(ds, capacity, axis, sent)
  {
    if sent == [] then []
    else SentSamples(ds, capacity, axis, sent[..|sent| - 1]) + [SentSample(ds, capacity, axis, sent[|sent| - 1])]
  }

  /** The same arrivals, with moments counted in the axis's own deltas. */
  function OwnMoments(ds: seq<AxisDelta>, axis: Axis, sent: seq<Arrival>): (own: seq<Arrival>)
    requires forall i :: 0 <= i < |sent| ==> sent[i].moment <= |ds|
    ensures Happened(DeltasOf(ds, axis), own)
  {
    if sent == [] then []
    else
      var a := sent[|sent| - 1];
      DeltasPrefix(ds, a.moment, axis);
      OwnMoments(ds, axis, sent[..|sent| - 1]) + [Arrival(|DeltasOf(ds[..a.moment], axis)|, a.short)]
  }

  /** What the peripheral sends is what the conservation law is about. */
  lemma {:induction false} SentAreSamples(ds: seq<AxisDelta>, capacity: nat, axis: Axis, sent: seq<Arrival>)
    requires Sendable(ds, capacity, axis, sent)
    ensures SentSamples(ds, capacity, axis, sent) == Samples(DeltasOf(ds, axis), OwnMoments(ds, axis, sent))
  {
    if sent != [] {
      var init, a := sent[..|sent| - 1], sent[|sent| - 1];
      SentAreSamples(ds, capacity, axis, init);
      SlotsAccumulate(ds[..a.moment], capacity, axis);
      DeltasPrefix(ds, a.moment, axis);
      assert DeltasOf(ds, axis)[..|DeltasOf(ds[..a.moment], axis)|] == DeltasOf(ds[..a.moment], axis);
      SamplesSnoc(DeltasOf(ds, axis), OwnMoments(ds, axis, init), Arrival(|DeltasOf(ds[..a.moment], axis)|, a.short));
    }
  }

  lemma {:induction false} SamplesSnoc(deltas: seq<int>, arrivals: seq<Arrival>, a: Arrival)
    requires Happened(deltas, arrivals) && a.moment <= |deltas|
    ensures Happened(deltas, arrivals + [a])
    ensures Samples(deltas, arrivals + [a]) == Samples(deltas, arrivals) + [OnTheWire(deltas, a)]
  {
    assert (arrivals + [a])[..|arrivals|] == arrivals;
  }

  /** Uplink conservation from the peripheral's slots to the central's table: whatever else either end
      handles, and whatever was lost, late, healed or reset, the motion forwarded on an axis since the
      reset is its true motion between the first and the last total taken. */
  lemma {:induction false} SlotsToTable(ds: seq<AxisDelta>, slots: nat, sent: seq<Arrival>, events: seq<Event>,
                                        capacity: nat, axis: Axis)
    requires Sendable(ds, slots, axis, sent) && OnAxis(SinceReset(events), axis) == SentSamples(ds, slots, axis, sent)
    requires axis in After(events, capacity)
    requires Close(Taken(TrueReadings(DeltasOf(ds, axis), OwnMoments(ds, axis, sent))))
    ensures var taken := Taken(TrueReadings(DeltasOf(ds, axis), OwnMoments(ds, axis, sent)));
      ForwardedSince(events, capacity, axis) == if taken == [] then 0 else taken[|taken| - 1] - taken[0]
  {
    SentAreSamples(ds, slots, axis, sent);
    TrackedAxisConserves(events, capacity, axis, DeltasOf(ds, axis), OwnMoments(ds, axis, sent));
  }
}
