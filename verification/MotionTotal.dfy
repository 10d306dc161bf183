/** Running totals of lossy input axes (src/esb_motion_total.h): fixed-width totals on the wire,
    true motion recovered by telescoping differences. */
module MotionTotal {
  const RESYNC_COUNTS := 8192

  /** Two's-complement truncation to 32 bits: whole turns are dropped until the value fits. */
  function Wrap32(x: int): (r: int)
    ensures -0x8000_0000 <= r < 0x8000_0000
    ensures -0x8000_0000 <= x < 0x8000_0000 ==> r == x
    decreases if x < 0 then -2 * x - 1 else 2 * x + 1
  {
    if x >= 0x8000_0000 then Wrap32(x - 0x1_0000_0000)
    else if x < -0x8000_0000 then Wrap32(x + 0x1_0000_0000)
    else x
  }

  function Wrap16(x: int): (r: int)
    ensures -0x8000 <= r < 0x8000
    ensures -0x8000 <= x < 0x8000 ==> r == x
    decreases if x < 0 then -2 * x - 1 else 2 * x + 1
  {
    if x >= 0x8000 then Wrap16(x - 0x1_0000)
    else if x < -0x8000 then Wrap16(x + 0x1_0000)
    else x
  }

  /** Baseline of one axis, as both receivers keep it. */
  datatype Track = Track(lastTotal: int, valid: bool)

  const FRESH := Track(0, false)

  function TotalAdd(total: int, delta: int): int { Wrap32(total + delta) }

  /** The moved baseline, and the delta to forward, 0 when nothing forwards. */
  function TrackGap(track: Track, gap: int): (Track, int) {
    (track.(lastTotal := TotalAdd(track.lastTotal, gap)),
     if gap > RESYNC_COUNTS || gap < -RESYNC_COUNTS then 0 else gap)
  }

  function TrackDelta(track: Track, total: int): (Track, int) {
    if !track.valid then (Track(total, true), 0)
    else TrackGap(track, Wrap32(total - track.lastTotal))
  }

  function TrackShortDelta(track: Track, shortTotal: int): (Track, int) {
    if !track.valid then (track, 0)
    else TrackGap(track, Wrap16(shortTotal - Wrap16(track.lastTotal)))
  }

  // ---- wrap-around ----

  lemma {:induction false} Wrap32Is(x: int) returns (k: int)
    ensures x == Wrap32(x) + k * 0x1_0000_0000
    decreases if x < 0 then -2 * x - 1 else 2 * x + 1
  {
    k := 0;
    if x >= 0x8000_0000 {
      k := Wrap32Is(x - 0x1_0000_0000);
      k := k + 1;
    } else if x < -0x8000_0000 {
      k := Wrap32Is(x + 0x1_0000_0000);
      k := k - 1;
    }
  }

  lemma {:induction false} Wrap16Is(x: int) returns (k: int)
    ensures x == Wrap16(x) + k * 0x1_0000
    decreases if x < 0 then -2 * x - 1 else 2 * x + 1
  {
    k := 0;
    if x >= 0x8000 {
      k := Wrap16Is(x - 0x1_0000);
      k := k + 1;
    } else if x < -0x8000 {
      k := Wrap16Is(x + 0x1_0000);
      k := k - 1;
    }
  }

  /** Numbers whole turns apart truncate alike, and only those. */
  lemma {:induction false} Wrap32Unique(x: int, y: int, k: int)
    requires x == y + k * 0x1_0000_0000
    ensures Wrap32(x) == Wrap32(y)
  {
    var i := Wrap32Is(x);
    var j := Wrap32Is(y);
    assert Wrap32(x) - Wrap32(y) == (k + j - i) * 0x1_0000_0000;
  }

  lemma {:induction false} Wrap16Unique(x: int, y: int, k: int)
    requires x == y + k * 0x1_0000
    ensures Wrap16(x) == Wrap16(y)
  {
    var i := Wrap16Is(x);
    var j := Wrap16Is(y);
    assert Wrap16(x) - Wrap16(y) == (k + j - i) * 0x1_0000;
  }

  lemma {:induction false} Wrap32Add(x: int, y: int)
    ensures Wrap32(Wrap32(x) + y) == Wrap32(x + y)
    ensures Wrap32(y - Wrap32(x)) == Wrap32(y - x)
  {
    var k := Wrap32Is(x);
    Wrap32Unique(x + y, Wrap32(x) + y, k);
    Wrap32Unique(y - x, y - Wrap32(x), -k);
  }

  /** The low 16 bits of a wrapped total are the low 16 bits of the true one. */
  lemma {:induction false} Wrap16Of32(x: int)
    ensures Wrap16(Wrap32(x)) == Wrap16(x)
  {
    var k := Wrap32Is(x);
    Wrap16Unique(x, Wrap32(x), k * 0x1_0000);
  }

  lemma {:induction false} Wrap16Gap(x: int, y: int)
    ensures Wrap16(Wrap16(x) - Wrap16(y)) == Wrap16(x - y)
  {
    var k := Wrap16Is(x);
    var l := Wrap16Is(y);
    Wrap16Unique(x - y, Wrap16(x) - Wrap16(y), k - l);
  }

  lemma {:induction false} Wrap32Shift(x: int, y: int, z: int)
    requires Wrap32(x) == Wrap32(y)
    ensures Wrap32(x + z) == Wrap32(y + z)
  {
    Wrap32Add(x, z);
    Wrap32Add(y, z);
  }

  /** Baselines that agree as 32-bit numbers have gaps that agree as 32-bit numbers. */
  lemma {:induction false} SameBaseline(base: int, gap: int, total: int)
    ensures Wrap32(base + gap) == Wrap32(total) <==> Wrap32(gap) == Wrap32(total - base)
  {
    if Wrap32(base + gap) == Wrap32(total) {
      Wrap32Shift(base + gap, total, -base);
    }
    if Wrap32(gap) == Wrap32(total - base) {
      Wrap32Shift(gap, total - base, base);
    }
  }

  // ---- one reading against the true motion ----

  /** A reading of the peripheral's true total, whole or as the keepalive's low half. */
  datatype Reading = Reading(total: int, short: bool)

  function Receive(track: Track, reading: Reading): (Track, int) {
    if reading.short then TrackShortDelta(track, Wrap16(reading.total)) else TrackDelta(track, Wrap32(reading.total))
  }

  /** `base` is the true total the baseline stands for. */
  predicate StandsFor(track: Track, base: int) {
    track.valid && track.lastTotal == Wrap32(base)
  }

  function Capped(gap: int): int {
    if -RESYNC_COUNTS <= gap <= RESYNC_COUNTS then gap else 0
  }

  /** A whole total always re-adopts the true baseline; the delta is the true gap within the cap. */
  lemma {:induction false} ReceiveWhole(track: Track, base: int, total: int)
    requires StandsFor(track, base)
    ensures var r := Receive(track, Reading(total, false));
      StandsFor(r.0, total) && r.1 == Capped(Wrap32(total - base))
  {
    WholeGap(base, total);
    WholeBaseline(base, total);
  }

  lemma {:induction false} WholeGap(base: int, total: int)
    ensures Wrap32(Wrap32(total) - Wrap32(base)) == Wrap32(total - base)
  {
    Wrap32Add(total, -Wrap32(base));
    Wrap32Add(base, total);
  }

  lemma {:induction false} WholeBaseline(base: int, total: int)
    ensures Wrap32(Wrap32(base) + Wrap32(total - base)) == Wrap32(total)
  {
    Wrap32Add(base, Wrap32(total - base));
    Wrap32Add(total - base, base);
  }

  lemma {:induction false} ReceiveShort(track: Track, base: int, total: int)
    requires StandsFor(track, base)
    ensures var r := Receive(track, Reading(total, true));
      StandsFor(r.0, base + Wrap16(total - base)) && r.1 == Capped(Wrap16(total - base))
  {
    Wrap16Of32(base);
    Wrap16Gap(total, base);
    Wrap32Add(base, Wrap16(total - base));
  }

  /** The keepalive's 16-bit path agrees with the 32-bit one exactly when the gap fits 16 bits. */
  lemma {:induction false} ShortPathAgrees(track: Track, base: int, total: int)
    requires StandsFor(track, base)
    ensures Receive(track, Reading(total, true)) == Receive(track, Reading(total, false))
       <==> -0x8000 <= Wrap32(total - base) < 0x8000
  {
    ReceiveWhole(track, base, total);
    ReceiveShort(track, base, total);
    Wrap16Of32(total - base);
    SameBaseline(base, Wrap16(total - base), total);
  }

  /** Within the cap both paths forward the true gap and re-adopt the true total. */
  lemma {:induction false} ReceiveNear(track: Track, base: int, reading: Reading)
    requires StandsFor(track, base)
    ensures Near(base, reading.total)
        ==> StandsFor(Receive(track, reading).0, reading.total) && Receive(track, reading).1 == reading.total - base
    ensures Near(0, Receive(track, reading).1)
  {
    ReceiveWhole(track, base, reading.total);
    ReceiveShort(track, base, reading.total);
  }

  // ---- a whole run of readings ----

  /** Track and sum of forwarded deltas after the readings that arrived, in arrival order. */
  function Feed(readings: seq<Reading>): (Track, int) {
    if readings == [] then (FRESH, 0)
    else
      var before := Feed(readings[..|readings| - 1]);
      var r := Receive(before.0, readings[|readings| - 1]);
      (r.0, before.1 + r.1)
  }

  /** True totals taken so far: low halves before the first whole total are ignored. */
  function Taken(readings: seq<Reading>): seq<int> {
    if readings == [] then []
    else
      var before, last := Taken(readings[..|readings| - 1]), readings[|readings| - 1];
      if last.short && before == [] then [] else before + [last.total]
  }

  predicate Near(a: int, b: int) { -RESYNC_COUNTS <= b - a <= RESYNC_COUNTS }

  predicate Close(taken: seq<int>) {
    forall i :: 0 <= i < |taken| - 1 ==> Near(taken[i], taken[i + 1])
  }

  /** Forwarded motion is the true motion between the first and the last total taken. */
  predicate Conserves(readings: seq<Reading>) {
    var taken := Taken(readings);
    if taken == [] then Feed(readings).1 == 0
    else Feed(readings).1 == taken[|taken| - 1] - taken[0]
  }

  ghost predicate Synced(readings: seq<Reading>) {
    var taken := Taken(readings);
    if taken == [] then Feed(readings).0 == FRESH else StandsFor(Feed(readings).0, taken[|taken| - 1])
  }

  lemma {:induction false} FeedStep(readings: seq<Reading>)
    requires readings != []
    requires Conserves(readings[..|readings| - 1]) && Synced(readings[..|readings| - 1])
    requires Close(Taken(readings[..|readings| - 1]))
    ensures Close(Taken(readings)) ==> Conserves(readings) && Synced(readings)
    ensures Conserves(readings) ==> Close(Taken(readings))
  {
    var init, last := readings[..|readings| - 1], readings[|readings| - 1];
    var before, after := Taken(init), Taken(readings);
    if before != [] {
      var base := before[|before| - 1];
      ReceiveNear(Feed(init).0, base, last);
      assert after == before + [last.total];
      assert Close(after) ==> Near(after[|before| - 1], after[|before|]);
    }
  }

  /** For every set of lost, late and healed readings: while each gap stays within the cap the
      forwarded motion is the true motion, 32-bit wrap-around included. */
  lemma {:induction false} Conservation(readings: seq<Reading>)
    requires Close(Taken(readings))
    ensures Conserves(readings)
    ensures Synced(readings)
  {
    if readings != [] {
      var init := readings[..|readings| - 1];
      assert Taken(init) <= Taken(readings);
      assert forall i :: 0 <= i < |Taken(init)| ==> Taken(init)[i] == Taken(readings)[i];
      Conservation(init);
      FeedStep(readings);
    }
  }

  /** And only then: if every moment of a run conserves motion, every gap was within the cap. */
  lemma {:induction false} ConservesOnlyIfClose(readings: seq<Reading>)
    requires forall k :: 0 <= k <= |readings| ==> Conserves(readings[..k])
    ensures Close(Taken(readings))
  {
    if readings != [] {
      var init := readings[..|readings| - 1];
      forall k | 0 <= k <= |init|
        ensures Conserves(init[..k])
      {
        assert init[..k] == readings[..k];
      }
      ConservesOnlyIfClose(init);
      Conservation(init);
      assert readings[..|readings|] == readings;
      FeedStep(readings);
    }
  }

  // ---- end to end with the peripheral's accumulator ----

  function Sum(deltas: seq<int>): int {
    if deltas == [] then 0 else Sum(deltas[..|deltas| - 1]) + deltas[|deltas| - 1]
  }

  /** The peripheral's 32-bit total after `deltas` (src/esb_peripheral.c:95-109). */
  function Accumulated(deltas: seq<int>): int {
    if deltas == [] then 0 else TotalAdd(Accumulated(deltas[..|deltas| - 1]), deltas[|deltas| - 1])
  }

  lemma {:induction false} AccumulatedIs(deltas: seq<int>)
    ensures Accumulated(deltas) == Wrap32(Sum(deltas))
  {
    if deltas != [] {
      AccumulatedIs(deltas[..|deltas| - 1]);
      Wrap32Add(Sum(deltas[..|deltas| - 1]), deltas[|deltas| - 1]);
    }
  }

  /** An arrival: the total as it stood after `moment` deltas, whole or as a keepalive's low half. */
  datatype Arrival = Arrival(moment: nat, short: bool)

  /** A total as it arrives: 32 bits, or the keepalive's 16. */
  datatype Sample = Sample(value: int, short: bool)

  /** What a receiver does with one sample. */
  function Apply(track: Track, s: Sample): (Track, int) {
    if s.short then TrackShortDelta(track, s.value) else TrackDelta(track, s.value)
  }

  function FeedSamples(samples: seq<Sample>): (Track, int) {
    if samples == [] then (FRESH, 0)
    else
      var before := FeedSamples(samples[..|samples| - 1]);
      var r := Apply(before.0, samples[|samples| - 1]);
      (r.0, before.1 + r.1)
  }

  predicate Happened(deltas: seq<int>, arrivals: seq<Arrival>) {
    forall i :: 0 <= i < |arrivals| ==> arrivals[i].moment <= |deltas|
  }

  function OnTheWire(deltas: seq<int>, a: Arrival): Sample
    requires a.moment <= |deltas|
  {
    var total := Accumulated(deltas[..a.moment]);
    Sample(if a.short then Wrap16(total) else total, a.short)
  }

  function Samples(deltas: seq<int>, arrivals: seq<Arrival>): seq<Sample>
    requires Happened(deltas, arrivals)
  {
    if arrivals == [] then []
    else Samples(deltas, arrivals[..|arrivals| - 1]) + [OnTheWire(deltas, arrivals[|arrivals| - 1])]
  }

  function TrueReadings(deltas: seq<int>, arrivals: seq<Arrival>): seq<Reading>
    requires Happened(deltas, arrivals)
  {
    if arrivals == [] then []
    else
      var last := arrivals[|arrivals| - 1];
      TrueReadings(deltas, arrivals[..|arrivals| - 1]) + [Reading(Sum(deltas[..last.moment]), last.short)]
  }

  lemma {:induction false} WireReading(deltas: seq<int>, a: Arrival, track: Track)
    requires a.moment <= |deltas|
    ensures Receive(track, Reading(Sum(deltas[..a.moment]), a.short)) == Apply(track, OnTheWire(deltas, a))
  {
    AccumulatedIs(deltas[..a.moment]);
    Wrap16Of32(Sum(deltas[..a.moment]));
  }

  lemma {:induction false} FeedAppend(readings: seq<Reading>, r: Reading, samples: seq<Sample>, s: Sample)
    requires FeedSamples(samples) == Feed(readings)
    requires Receive(Feed(readings).0, r) == Apply(Feed(readings).0, s)
    ensures FeedSamples(samples + [s]) == Feed(readings + [r])
  {
    assert (readings + [r])[..|readings|] == readings;
    assert (samples + [s])[..|samples|] == samples;
  }

  lemma {:induction false} SamplesFeed(deltas: seq<int>, arrivals: seq<Arrival>)
    requires Happened(deltas, arrivals)
    ensures FeedSamples(Samples(deltas, arrivals)) == Feed(TrueReadings(deltas, arrivals))
  {
    if arrivals != [] {
      var init, last := arrivals[..|arrivals| - 1], arrivals[|arrivals| - 1];
      SamplesFeed(deltas, init);
      var readings, samples := TrueReadings(deltas, init), Samples(deltas, init);
      WireReading(deltas, last, Feed(readings).0);
      FeedAppend(readings, Reading(Sum(deltas[..last.moment]), last.short), samples, OnTheWire(deltas, last));
    }
  }

  /** Uplink conservation: every delta sequence, any loss, delay, repetition or heal. */
  lemma {:induction false} UplinkConservation(deltas: seq<int>, arrivals: seq<Arrival>)
    requires Happened(deltas, arrivals) && Close(Taken(TrueReadings(deltas, arrivals)))
    ensures var taken := Taken(TrueReadings(deltas, arrivals));
      FeedSamples(Samples(deltas, arrivals)).1 == if taken == [] then 0 else taken[|taken| - 1] - taken[0]
  {
    SamplesFeed(deltas, arrivals);
    Conservation(TrueReadings(deltas, arrivals));
  }
}
