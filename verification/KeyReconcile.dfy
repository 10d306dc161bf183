/** Key positions on the central: live events, keepalive reconcile and staleness release
    (src/central.c:221-275, src/central.c:383-401, src/esb_keepalive.c:199-223). */
module KeyReconcile {
  import opened Bitmap

  const POSITION_COUNT := 64
  const BITMAP_BYTES := 8

  datatype Event = Event(position: nat, pressed: bool)

  datatype Verdict = Forward | DropOrphanRelease | HealLostRelease

  function KeyVerdict(tracked: bool, pressed: bool): Verdict {
    if !pressed && !tracked then DropOrphanRelease
    else if pressed && tracked then HealLostRelease
    else Forward
  }

  /** One event per differing position from `from` on, upward. */
  function DiffEvents(tracked: set<nat>, target: set<nat>, from: nat): seq<Event>
    requires from <= POSITION_COUNT
    decreases POSITION_COUNT - from
  {
    if from == POSITION_COUNT then []
    else if (from in tracked) != (from in target) then
      [Event(from, from in target)] + DiffEvents(tracked, target, from + 1)
    else DiffEvents(tracked, target, from + 1)
  }

  /** Events a live key event turns into, and the tracked positions after it. */
  function KeyEvents(tracked: set<nat>, position: nat, pressed: bool): seq<Event> {
    if position >= POSITION_COUNT then [Event(position, pressed)]
    else match KeyVerdict(position in tracked, pressed)
      case DropOrphanRelease => []
      case HealLostRelease => [Event(position, false), Event(position, pressed)]
      case Forward => [Event(position, pressed)]
  }

  function KeyTracked(tracked: set<nat>, position: nat, pressed: bool): set<nat> {
    if position >= POSITION_COUNT then tracked
    else if pressed then tracked + {position}
    else tracked - {position}
  }

  // ---- the code ----

  /** Positions past the bitmap read as released, and writing one changes nothing. */
  function PositionGet(bitmap: seq<bv8>, position: nat): bool
    requires |bitmap| == BITMAP_BYTES
  {
    position < POSITION_COUNT && Get(bitmap, position)
  }

  function PositionSet(bitmap: seq<bv8>, position: nat, on: bool): (r: seq<bv8>)
    requires |bitmap| == BITMAP_BYTES
    ensures |r| == BITMAP_BYTES
    ensures forall q: nat ::
      PositionGet(r, q) == if q == position && q < POSITION_COUNT then on else PositionGet(bitmap, q)
  {
    if position < POSITION_COUNT then Set(bitmap, position, on) else bitmap
  }

  method DiffNext(tracked: seq<bv8>, received: seq<bv8>, start: nat) returns (position: nat)
    requires |tracked| == |received| == BITMAP_BYTES
    ensures start <= POSITION_COUNT ==> start <= position <= POSITION_COUNT
    ensures start > POSITION_COUNT ==> position == POSITION_COUNT
    ensures forall p :: start <= p < position ==> Get(tracked, p) == Get(received, p)
    ensures position < POSITION_COUNT ==> Get(tracked, position) != Get(received, position)
  {
    position := start;
    while position < POSITION_COUNT
      invariant start <= position && (start <= POSITION_COUNT ==> position <= POSITION_COUNT)
      invariant forall p :: start <= p < position && p < POSITION_COUNT ==> Get(tracked, p) == Get(received, p)
    {
      if PositionGet(tracked, position) != PositionGet(received, position) {
        return;
      }
      position := position + 1;
    }
    position := POSITION_COUNT;
  }

  lemma {:induction false} SkipSame(tracked: set<nat>, target: set<nat>, from: nat, to: nat)
    requires from <= to <= POSITION_COUNT && forall p :: from <= p < to ==> (p in tracked) == (p in target)
    ensures DiffEvents(tracked, target, from) == DiffEvents(tracked, target, to)
    decreases POSITION_COUNT - from
  {
    if from < to {
      SkipSame(tracked, target, from + 1, to);
    }
  }

  lemma {:induction false} DiffStep(was: set<nat>, goal: set<nat>, events: seq<Event>, at: nat, next: nat)
    requires at < next <= POSITION_COUNT && (at in was) != (at in goal)
    requires forall p :: at < p < next ==> (p in was) == (p in goal)
    ensures events + DiffEvents(was, goal, at) == events + [Event(at, at in goal)] + DiffEvents(was, goal, next)
  {
    SkipSame(was, goal, at + 1, next);
  }

  class KeyTracker {
    var tracked: seq<bv8>

    ghost predicate Valid()
      reads this
    {
      |tracked| == BITMAP_BYTES
    }

    ghost function Held(): set<nat>
      reads this
      requires Valid()
    {
      Members(tracked, POSITION_COUNT)
    }

    constructor ()
      ensures Valid() && Held() == {}
    {
      tracked := seq(BITMAP_BYTES, i => 0);
    }

    method ReplayDiff(target: seq<bv8>) returns (events: seq<Event>)
      requires Valid() && |target| == BITMAP_BYTES
      modifies this
      ensures Valid() && Held() == Members(target, POSITION_COUNT)
      ensures events == DiffEvents(old(Held()), Members(target, POSITION_COUNT), 0)
    {
      ghost var was, goal := Held(), Members(target, POSITION_COUNT);
      events := [];
      var position := DiffNext(tracked, target, 0);
      SkipSame(was, goal, 0, position);
      while position < POSITION_COUNT
        invariant Valid() && position <= POSITION_COUNT
        invariant forall p :: 0 <= p < position ==> (p in Held()) == (p in goal)
        invariant forall p :: position <= p < POSITION_COUNT ==> (p in Held()) == (p in was)
        invariant position < POSITION_COUNT ==> (position in was) != (position in goal)
        invariant DiffEvents(was, goal, 0) == events + DiffEvents(was, goal, position)
      {
        ghost var at := position;
        var pressed := PositionGet(target, position);
        tracked := PositionSet(tracked, position, pressed);
        events := events + [Event(position, pressed)];
        position := DiffNext(tracked, target, position + 1);
        assert forall p :: at < p < position ==> (p in was) == (p in goal);
        DiffStep(was, goal, events[..|events| - 1], at, position);
      }
    }

    method DeliverKey(position: nat, pressed: bool) returns (events: seq<Event>)
      requires Valid()
      modifies this
      ensures Valid() && Held() == KeyTracked(old(Held()), position, pressed)
      ensures events == KeyEvents(old(Held()), position, pressed)
    {
      if position >= POSITION_COUNT {
        return [Event(position, pressed)];
      }
      events := [];
      match KeyVerdict(PositionGet(tracked, position), pressed) {
        case DropOrphanRelease =>
          return;
        case HealLostRelease =>
          events := [Event(position, false)];
        case Forward =>
      }
      tracked := PositionSet(tracked, position, pressed);
      events := events + [Event(position, pressed)];
    }

    method ReleaseStale() returns (events: seq<Event>)
      requires Valid()
      modifies this
      ensures Valid() && Held() == {}
      ensures events == DiffEvents(old(Held()), {}, 0)
    {
      var none: seq<bv8> := seq(BITMAP_BYTES, i => 0);
      assert Members(none, POSITION_COUNT) == {};
      events := ReplayDiff(none);
    }
  }

  // ---- whole runs ----

  datatype Step = Key(position: nat, pressed: bool) | Keepalive(snapshot: set<nat>) | Stale

  /** The positions a keepalive has bits for. */
  function Covered(snapshot: set<nat>): set<nat> { set p | p in snapshot && p < POSITION_COUNT }

  function Do(tracked: set<nat>, step: Step): (set<nat>, seq<Event>) {
    match step
    case Key(position, pressed) => (KeyTracked(tracked, position, pressed), KeyEvents(tracked, position, pressed))
    case Keepalive(snapshot) => (Covered(snapshot), DiffEvents(tracked, snapshot, 0))
    case Stale => ({}, DiffEvents(tracked, {}, 0))
  }

  function Run(steps: seq<Step>): (set<nat>, seq<Event>) {
    if steps == [] then ({}, [])
    else
      var before := Run(steps[..|steps| - 1]);
      var r := Do(before.0, steps[|steps| - 1]);
      (r.0, before.1 + r.1)
  }

  /** The presses and releases forwarded for one position. */
  function At(events: seq<Event>, position: nat): seq<bool> {
    if events == [] then []
    else
      var last := events[|events| - 1];
      At(events[..|events| - 1], position) + if last.position == position then [last.pressed] else []
  }

  lemma {:induction false} AtAppend(a: seq<Event>, b: seq<Event>, position: nat)
    ensures At(a + b, position) == At(a, position) + At(b, position)
  {
    if b == [] {
      assert a + b == a;
    } else {
      assert (a + b)[..|a + b| - 1] == a + b[..|b| - 1];
      AtAppend(a, b[..|b| - 1], position);
    }
  }

  lemma {:induction false} AtOne(e: Event, position: nat)
    ensures At([e], position) == if e.position == position then [e.pressed] else []
  {
    assert [e][..0] == [];
  }

  lemma {:induction false} AtDiff(tracked: set<nat>, target: set<nat>, from: nat, position: nat)
    requires from <= POSITION_COUNT && position < POSITION_COUNT
    ensures At(DiffEvents(tracked, target, from), position)
         == if from <= position && (position in tracked) != (position in target) then [position in target] else []
    decreases POSITION_COUNT - from
  {
    if from < POSITION_COUNT {
      AtDiff(tracked, target, from + 1, position);
      AtAppend([Event(from, from in target)], DiffEvents(tracked, target, from + 1), position);
      AtOne(Event(from, from in target), position);
    }
  }

  /** Press first, then strictly alternating. */
  predicate Alternates(stream: seq<bool>) {
    forall i :: 0 <= i < |stream| ==> stream[i] == (i % 2 == 0)
  }

  lemma {:induction false} AtKey(tracked: set<nat>, p: nat, pressed: bool, position: nat)
    requires position < POSITION_COUNT
    ensures At(KeyEvents(tracked, p, pressed), position)
         == if p != position || (!pressed && position !in tracked) then []
            else if pressed && position in tracked then [false, true]
            else [pressed]
  {
    AtOne(Event(p, pressed), position);
    AtOne(Event(p, false), position);
    AtAppend([Event(p, false)], [Event(p, pressed)], position);
    assert [Event(p, false)] + [Event(p, pressed)] == [Event(p, false), Event(p, pressed)];
    assert At([], position) == [];
  }

  /** What one step forwards for a position: nothing, its new state, or a healed release first. */
  lemma {:induction false} AtStep(tracked: set<nat>, step: Step, position: nat)
    requires position < POSITION_COUNT
    ensures var emitted := At(Do(tracked, step).1, position);
      var held, held' := position in tracked, position in Do(tracked, step).0;
      if held != held' then emitted == [held'] else emitted == [] || (held && emitted == [false, true])
  {
    match step
    case Key(p, pressed) => AtKey(tracked, p, pressed, position);
    case Keepalive(snapshot) => AtDiff(tracked, snapshot, 0, position);
    case Stale => AtDiff(tracked, {}, 0, position);
  }

  lemma {:induction false} Extend(stream: seq<bool>, held: bool, emitted: seq<bool>, held': bool)
    requires Alternates(stream) && held == (|stream| % 2 == 1)
    requires if held != held' then emitted == [held'] else emitted == [] || (held && emitted == [false, true])
    ensures Alternates(stream + emitted) && held' == (|stream + emitted| % 2 == 1)
  {
  }

  ghost predicate Alternating(state: (set<nat>, seq<Event>), position: nat) {
    var stream := At(state.1, position);
    Alternates(stream) && (position in state.0) == (|stream| % 2 == 1)
  }

  lemma {:induction false} RunAlternates(steps: seq<Step>, position: nat)
    requires position < POSITION_COUNT
    ensures Alternating(Run(steps), position)
  {
    if steps == [] {
      assert At([], position) == [];
    } else {
      var init, last := steps[..|steps| - 1], steps[|steps| - 1];
      RunAlternates(init, position);
      var before := Run(init);
      var step := Do(before.0, last);
      AtStep(before.0, last, position);
      Extend(At(before.1, position), position in before.0, At(step.1, position), position in step.0);
      AtAppend(before.1, step.1, position);
    }
  }

  /** For every interleaving of live events, keepalives and staleness releases, whatever was lost:
      each covered position's forwarded events alternate, and the tracked bit is the last of them. */
  lemma {:induction false} StreamsAlternate(steps: seq<Step>, position: nat)
    requires position < POSITION_COUNT
    ensures var stream := At(Run(steps).1, position);
      && Alternates(stream)
      && (position in Run(steps).0) == (stream != [] && stream[|stream| - 1])
  {
    RunAlternates(steps, position);
    LastOfAlternating(At(Run(steps).1, position), position in Run(steps).0);
  }

  lemma {:induction false} LastOfAlternating(stream: seq<bool>, held: bool)
    requires Alternates(stream) && held == (|stream| % 2 == 1)
    ensures held == (stream != [] && stream[|stream| - 1])
  {
  }

  /** A keepalive brings the central to the snapshot from any state, with one event for each
      position that differed and none for any other. */
  lemma {:induction false} KeepaliveConverges(steps: seq<Step>, snapshot: set<nat>, position: nat)
    requires position < POSITION_COUNT
    ensures var before, after := Run(steps), Run(steps + [Keepalive(snapshot)]);
      && after.0 == Covered(snapshot)
      && At(after.1, position) == At(before.1, position)
           + if (position in before.0) != (position in snapshot) then [position in snapshot] else []
  {
    var all := steps + [Keepalive(snapshot)];
    assert all[..|all| - 1] == steps;
    AtDiff(Run(steps).0, snapshot, 0, position);
    AtAppend(Run(steps).1, DiffEvents(Run(steps).0, snapshot, 0), position);
  }

  // ---- live events ----

  /** The presses and releases of a position that arrived live. */
  function LiveAt(steps: seq<Step>, position: nat): seq<bool> {
    if steps == [] then []
    else
      var last := steps[|steps| - 1];
      LiveAt(steps[..|steps| - 1], position) + if last.Key? && last.position == position then [last.pressed] else []
  }

  lemma {:induction false} DiffCovers(tracked: set<nat>, target: set<nat>, from: nat, position: nat)
    requires from <= POSITION_COUNT && position >= POSITION_COUNT
    ensures At(DiffEvents(tracked, target, from), position) == []
    decreases POSITION_COUNT - from
  {
    assert At([], position) == [];
    if from < POSITION_COUNT {
      DiffCovers(tracked, target, from + 1, position);
      AtAppend([Event(from, from in target)], DiffEvents(tracked, target, from + 1), position);
      AtOne(Event(from, from in target), position);
    }
  }

  lemma {:induction false} UncoveredStep(tracked: set<nat>, step: Step, position: nat)
    requires position >= POSITION_COUNT && position !in tracked
    ensures position !in Do(tracked, step).0
    ensures At(Do(tracked, step).1, position) == if step.Key? && step.position == position then [step.pressed] else []
  {
    match step
    case Key(p, pressed) =>
      AtOne(Event(p, pressed), position);
      AtOne(Event(p, false), position);
      AtAppend([Event(p, false)], [Event(p, pressed)], position);
      assert [Event(p, false)] + [Event(p, pressed)] == [Event(p, false), Event(p, pressed)];
      assert At([], position) == [];
    case Keepalive(snapshot) => DiffCovers(tracked, snapshot, 0, position);
    case Stale => DiffCovers(tracked, {}, 0, position);
  }

  /** A position past the bitmap is passed through: just its live events are forwarded, and it is never held. */
  lemma {:induction false} UncoveredPasses(steps: seq<Step>, position: nat)
    requires position >= POSITION_COUNT
    ensures At(Run(steps).1, position) == LiveAt(steps, position) && position !in Run(steps).0
  {
    if steps != [] {
      var init, last := steps[..|steps| - 1], steps[|steps| - 1];
      UncoveredPasses(init, position);
      UncoveredStep(Run(init).0, last, position);
      AtAppend(Run(init).1, Do(Run(init).0, last).1, position);
    }
  }

  /** A live event of a covered position always brings the host to it: a press is forwarded, behind a
      healed release if the position was held, a release of a position not held is the one thing dropped. */
  lemma {:induction false} LiveSettles(steps: seq<Step>, position: nat, pressed: bool)
    requires position < POSITION_COUNT
    ensures var before, after := Run(steps), Run(steps + [Key(position, pressed)]);
      var held := position in before.0;
      && (position in after.0) == pressed
      && (forall p: nat :: p != position ==> (p in after.0) == (p in before.0))
      && At(after.1, position) == At(before.1, position)
           + if pressed then (if held then [false, true] else [true]) else if held then [false] else []
  {
    var all := steps + [Key(position, pressed)];
    assert all[..|all| - 1] == steps;
    AtKey(Run(steps).0, position, pressed, position);
    AtAppend(Run(steps).1, KeyEvents(Run(steps).0, position, pressed), position);
  }

  /** A staleness release leaves nothing held, with one release for each position that was. */
  lemma {:induction false} StaleReleases(steps: seq<Step>, position: nat)
    requires position < POSITION_COUNT
    ensures var before, after := Run(steps), Run(steps + [Stale]);
      && after.0 == {}
      && At(after.1, position) == At(before.1, position) + if position in before.0 then [false] else []
  {
    var all := steps + [Stale];
    assert all[..|all| - 1] == steps;
    AtDiff(Run(steps).0, {}, 0, position);
    AtAppend(Run(steps).1, DiffEvents(Run(steps).0, {}, 0), position);
  }
}
