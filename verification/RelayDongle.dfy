/** The dongle's half of the relay: received reports to the USB sink, pointer totals back to deltas,
    nothing moved when the sink refuses (src/esb_hid_relay_peripheral.c:56-179). */
module RelayDongle {
  import opened Common
  import opened Layout
  import opened MotionTotal
  import opened RelayReports
  import opened RelayBytes

  /** What the sink was given: a pointer report of deltas, or a keyboard or consumer report. */
  datatype Usb = PointerUsb(buttons: Byte, deltas: seq<int>, coalesce: bool) | StateUsb(report: Report)

  datatype Dongle = Dongle(tracks: seq<Track>, buttons: Byte, keyboard: seq<Byte>, consumer: seq<Byte>) {
    predicate Shaped() { |tracks| == AXES }
  }

  /** A report arrives; the link was silent before it or not, and the sink has room or not. */
  datatype Delivery = Delivery(report: Report, silent: bool, room: bool)

  predicate WholeReport(r: Report) { r.Mouse? ==> |r.body.totals| == AXES }

  // ---- one report ----

  /** One axis: the first total since silence is the baseline. */
  function Turn(track: Track, total: I16): (Track, int) {
    if track.valid then TrackShortDelta(track, total as int) else TrackDelta(track, total as int)
  }

  function Forget(tracks: seq<Track>, silent: bool): (r: seq<Track>)
    ensures |r| == |tracks|
    ensures forall a :: 0 <= a < |tracks| ==> r[a] == if silent then tracks[a].(valid := false) else tracks[a]
  {
    if tracks == [] then []
    else
      var last := tracks[|tracks| - 1];
      Forget(tracks[..|tracks| - 1], silent) + [if silent then last.(valid := false) else last]
  }

  function Turned(tracks: seq<Track>, totals: seq<I16>): (r: seq<Track>)
    requires |tracks| == |totals|
    ensures |r| == |tracks| && forall a :: 0 <= a < |tracks| ==> r[a] == Turn(tracks[a], totals[a]).0
  {
    if tracks == [] then []
    else
      var n := |tracks| - 1;
      Turned(tracks[..n], totals[..n]) + [Turn(tracks[n], totals[n]).0]
  }

  function Deltas(tracks: seq<Track>, totals: seq<I16>): (r: seq<int>)
    requires |tracks| == |totals|
    ensures |r| == |tracks| && forall a :: 0 <= a < |tracks| ==> r[a] == Turn(tracks[a], totals[a]).1
  {
    if tracks == [] then []
    else
      var n := |tracks| - 1;
      Deltas(tracks[..n], totals[..n]) + [Turn(tracks[n], totals[n]).1]
  }

  predicate Moves(deltas: seq<int>) { exists a :: 0 <= a < |deltas| && deltas[a] != 0 }

  /** There is something to tell the sink. */
  predicate PointerNews(d: Dongle, body: Body, silent: bool)
    requires d.Shaped() && |body.totals| == AXES
  {
    Moves(Deltas(Forget(d.tracks, silent), body.totals)) || body.buttons != d.buttons
  }

  function AfterPointer(d: Dongle, body: Body, silent: bool, room: bool): (r: (Dongle, Option<Usb>))
    requires d.Shaped() && |body.totals| == AXES
    ensures r.0.Shaped()
  {
    var before := Forget(d.tracks, silent);
    if !PointerNews(d, body, silent) then (d.(tracks := Turned(before, body.totals)), None)
    else if !room then (d.(tracks := before), None)
    else (d.(tracks := Turned(before, body.totals), buttons := body.buttons),
          Some(PointerUsb(body.buttons, Deltas(before, body.totals), body.buttons == d.buttons)))
  }

  function Deliver(d: Dongle, x: Delivery): (r: (Dongle, Option<Usb>))
    requires d.Shaped() && WholeReport(x.report)
    ensures r.0.Shaped()
  {
    match x.report
    case Mouse(body) => AfterPointer(d, body, x.silent, x.room)
    case Keyboard(rest) =>
      if rest == d.keyboard || !x.room then (d, None) else (d.(keyboard := rest), Some(StateUsb(x.report)))
    case Consumer(rest) =>
      if rest == d.consumer || !x.room then (d, None) else (d.(consumer := rest), Some(StateUsb(x.report)))
    case Command(_) => (d, None)
  }

  // ---- runs ----

  predicate Whole(ds: seq<Delivery>) { forall i :: 0 <= i < |ds| ==> WholeReport(ds[i].report) }

  function After(start: Dongle, ds: seq<Delivery>): (d: Dongle)
    requires start.Shaped() && Whole(ds)
    ensures d.Shaped()
  {
    if ds == [] then start else Deliver(After(start, ds[..|ds| - 1]), ds[|ds| - 1]).0
  }

  function Told(d: Dongle, x: Delivery): seq<Usb>
    requires d.Shaped() && WholeReport(x.report)
  {
    match Deliver(d, x).1
    case None => []
    case Some(u) => [u]
  }

  /** Everything the sink took. */
  function Host(start: Dongle, ds: seq<Delivery>): seq<Usb>
    requires start.Shaped() && Whole(ds)
  {
    if ds == [] then []
    else Host(start, ds[..|ds| - 1]) + Told(After(start, ds[..|ds| - 1]), ds[|ds| - 1])
  }

  /** The sink turned a pointer report with news away. */
  predicate Refused(d: Dongle, x: Delivery)
    requires d.Shaped() && WholeReport(x.report)
  {
    x.report.Mouse? && !x.silent && !x.room && PointerNews(d, x.report.body, false)
  }

  lemma {:induction false} RefusedStays(d: Dongle, x: Delivery)
    requires d.Shaped() && WholeReport(x.report) && Refused(d, x)
    ensures Deliver(d, x) == (d, None)
  {
    assert Forget(d.tracks, false) == d.tracks;
  }

  lemma {:induction false} DeliverSnoc(start: Dongle, ds: seq<Delivery>, x: Delivery)
    requires start.Shaped() && Whole(ds) && WholeReport(x.report)
    ensures Whole(ds + [x]) && After(start, ds + [x]) == Deliver(After(start, ds), x).0
    ensures Host(start, ds + [x]) == Host(start, ds) + Told(After(start, ds), x)
  {
    assert (ds + [x])[..|ds|] == ds;
  }

  /** A refused pointer report leaves no trace: whatever follows, the sink takes what it would have
      taken had the report never arrived, so its motion is in the deltas of a later one. */
  lemma {:induction false} RefusedLeavesNoTrace(start: Dongle, a: seq<Delivery>, x: Delivery, b: seq<Delivery>)
    requires start.Shaped() && Whole(a) && WholeReport(x.report) && Whole(b) && Refused(After(start, a), x)
    ensures Whole(a + [x] + b) && Whole(a + b)
    ensures After(start, a + [x] + b) == After(start, a + b) && Host(start, a + [x] + b) == Host(start, a + b)
    decreases |b|
  {
    if b == [] {
      RefusedLast(start, a, x);
      assert a + [x] + b == a + [x] && a + b == a;
    } else {
      var init, y := b[..|b| - 1], b[|b| - 1];
      RefusedLeavesNoTrace(start, a, x, init);
      NoTraceStep(start, a + init, a + [x] + init, y);
      Snoc(a, b);
      Snoc(a + [x], b);
    }
  }

  lemma {:induction false} RefusedLast(start: Dongle, a: seq<Delivery>, x: Delivery)
    requires start.Shaped() && Whole(a) && WholeReport(x.report) && Refused(After(start, a), x)
    ensures Whole(a + [x]) && After(start, a + [x]) == After(start, a) && Host(start, a + [x]) == Host(start, a)
  {
    DeliverSnoc(start, a, x);
    RefusedStays(After(start, a), x);
    assert Host(start, a) + [] == Host(start, a);
  }

  lemma {:induction false} NoTraceStep(start: Dongle, s: seq<Delivery>, t: seq<Delivery>, y: Delivery)
    requires start.Shaped() && Whole(s) && Whole(t) && WholeReport(y.report)
    requires After(start, t) == After(start, s) && Host(start, t) == Host(start, s)
    ensures Whole(s + [y]) && Whole(t + [y])
    ensures After(start, t + [y]) == After(start, s + [y]) && Host(start, t + [y]) == Host(start, s + [y])
  {
    DeliverSnoc(start, s, y);
    DeliverSnoc(start, t, y);
  }

  predicate Resets(x: Delivery) { x.report.Mouse? && x.silent }

  /** The report's totals became the baseline: the sink took it, or it held no news. */
  predicate Commits(d: Dongle, x: Delivery)
    requires d.Shaped() && WholeReport(x.report)
  {
    x.report.Mouse? && (x.room || !PointerNews(d, x.report.body, x.silent))
  }

  /** Motion of one axis the sink took since the last silence. */
  function Forwarded(start: Dongle, ds: seq<Delivery>, axis: nat): int
    requires start.Shaped() && Whole(ds) && axis < AXES
  {
    if ds == [] then 0
    else
      var init, x := ds[..|ds| - 1], ds[|ds| - 1];
      (if Resets(x) then 0 else Forwarded(start, init, axis)) + AxisDelta(Deliver(After(start, init), x).1, axis)
  }

  function AxisDelta(u: Option<Usb>, axis: nat): int {
    if u.Some? && u.value.PointerUsb? && axis < |u.value.deltas| then u.value.deltas[axis] else 0
  }

  /** True totals of the reports committed since the last silence; `truth[i]` is delivery `i`'s. */
  function Committed(start: Dongle, ds: seq<Delivery>, truth: seq<int>): (c: seq<int>)
    requires start.Shaped() && Whole(ds) && |truth| == |ds|
  {
    if ds == [] then []
    else
      var n := |ds| - 1;
      (if Resets(ds[n]) then [] else Committed(start, ds[..n], truth[..n]))
      + if Commits(After(start, ds[..n]), ds[n]) then [truth[n]] else []
  }

  /** Each mouse report carries the low half of its true total. */
  predicate Carries(ds: seq<Delivery>, axis: nat, truth: seq<int>)
    requires Whole(ds) && |truth| == |ds| && axis < AXES
  {
    forall i :: 0 <= i < |ds| && ds[i].report.Mouse? ==> ds[i].report.body.totals[axis] == Low16(truth[i])
  }

  // ---- conservation ----

  /** `base` is a true total whose low half the baseline has. */
  predicate StandsShort(track: Track, base: int) { track.valid && Wrap16(track.lastTotal) == Wrap16(base) }

  lemma {:induction false} ShortGap(track: Track, base: int, total: int)
    requires StandsShort(track, base)
    ensures Wrap16(Wrap16(total) - Wrap16(track.lastTotal)) == Wrap16(total - base)
  {
    Wrap16Gap(total, base);
  }

  lemma {:induction false} ShortAdvance(track: Track, base: int, total: int)
    requires StandsShort(track, base)
    ensures Wrap16(TotalAdd(track.lastTotal, Wrap16(total - base))) == Wrap16(total)
  {
    var gap := Wrap16(total - base);
    Wrap16Of32(track.lastTotal + gap);
    var k := Wrap16Is(total - base);
    var i := Wrap16Is(track.lastTotal);
    var j := Wrap16Is(base);
    Wrap16Unique(track.lastTotal + gap, total, i - j - k);
  }

  /** One committed total: the true gap within the cap, and the baseline follows either way. */
  lemma {:induction false} TurnConserves(track: Track, base: int, total: int)
    requires StandsShort(track, base)
    ensures var r := Turn(track, Low16(total));
      && StandsShort(r.0, total)
      && r.1 == Capped(Wrap16(total - base))
  {
    ShortGap(track, base, total);
    ShortAdvance(track, base, total);
  }

  lemma {:induction false} TurnFirst(track: Track, total: int)
    requires !track.valid
    ensures StandsShort(Turn(track, Low16(total)).0, total) && Turn(track, Low16(total)).1 == 0
  {
  }

  /** One axis, once `committed` are its totals since silence and `forwarded` its motion. */
  ghost predicate AxisKept(track: Track, committed: seq<int>, forwarded: int) {
    && (if committed == [] then !track.valid && forwarded == 0 else StandsShort(track, committed[|committed| - 1]))
    && (Close(committed) && committed != [] ==> forwarded == committed[|committed| - 1] - committed[0])
  }

  lemma {:induction false} CloseInit(committed: seq<int>, total: int)
    requires Close(committed + [total])
    ensures Close(committed) && (committed != [] ==> Near(committed[|committed| - 1], total))
  {
    var all := committed + [total];
    assert forall i :: 0 <= i < |committed| ==> committed[i] == all[i];
    if committed != [] { assert Near(all[|committed| - 1], all[|committed|]); }
  }

  lemma {:induction false} CommitKeeps(track: Track, committed: seq<int>, forwarded: int, total: int)
    requires AxisKept(track, committed, forwarded)
    ensures var r := Turn(track, Low16(total)); AxisKept(r.0, committed + [total], forwarded + r.1)
  {
    if committed == [] {
      TurnFirst(track, total);
    } else {
      var base := committed[|committed| - 1];
      TurnConserves(track, base, total);
      if Close(committed + [total]) { CloseInit(committed, total); }
    }
  }

  /** What one pointer report does to one axis. */
  lemma {:induction false} AxisMoves(d: Dongle, x: Delivery, axis: nat)
    requires d.Shaped() && WholeReport(x.report) && x.report.Mouse? && axis < AXES
    ensures var r, track := Deliver(d, x), Forget(d.tracks, x.silent)[axis];
      && r.0.tracks[axis] == (if Commits(d, x) then Turn(track, x.report.body.totals[axis]).0 else track)
      && AxisDelta(r.1, axis) == if Commits(d, x) then Turn(track, x.report.body.totals[axis]).1 else 0
  {
    var deltas := Deltas(Forget(d.tracks, x.silent), x.report.body.totals);
    assert !Moves(deltas) ==> deltas[axis] == 0;
  }

  lemma {:induction false} OtherMoves(d: Dongle, x: Delivery, axis: nat)
    requires d.Shaped() && !x.report.Mouse? && axis < AXES
    ensures Deliver(d, x).0.tracks == d.tracks && AxisDelta(Deliver(d, x).1, axis) == 0
  {
  }

  lemma {:induction false} PointerKeeps(d: Dongle, x: Delivery, axis: nat, committed: seq<int>, forwarded: int,
                                        total: int)
    requires d.Shaped() && WholeReport(x.report) && x.report.Mouse? && axis < AXES
    requires AxisKept(d.tracks[axis], committed, forwarded) && x.report.body.totals[axis] == Low16(total)
    ensures AxisKept(Deliver(d, x).0.tracks[axis],
                     (if x.silent then [] else committed) + (if Commits(d, x) then [total] else []),
                     (if x.silent then 0 else forwarded) + AxisDelta(Deliver(d, x).1, axis))
  {
    AxisMoves(d, x, axis);
    var track := Forget(d.tracks, x.silent)[axis];
    var since, sum := if x.silent then [] else committed, if x.silent then 0 else forwarded;
    assert AxisKept(track, since, sum);
    if Commits(d, x) { CommitKeeps(track, since, sum, total); } else { assert since + [] == since; }
  }

  lemma {:induction false} AxisInvariant(start: Dongle, ds: seq<Delivery>, axis: nat, truth: seq<int>)
    returns (d: Dongle, committed: seq<int>, forwarded: int)
    requires start.Shaped() && Whole(ds) && |truth| == |ds| && axis < AXES && !start.tracks[axis].valid
    requires Carries(ds, axis, truth)
    ensures d == After(start, ds) && committed == Committed(start, ds, truth) && forwarded == Forwarded(start, ds, axis)
    ensures AxisKept(d.tracks[axis], committed, forwarded)
  {
    if ds == [] {
      d, committed, forwarded := start, [], 0;
    } else {
      var n := |ds| - 1;
      var before, c, f := AxisInvariant(start, ds[..n], axis, truth[..n]);
      DeliveryKeeps(before, ds[n], axis, c, f, truth[n]);
      d := Deliver(before, ds[n]).0;
      committed := (if Resets(ds[n]) then [] else c) + (if Commits(before, ds[n]) then [truth[n]] else []);
      forwarded := (if Resets(ds[n]) then 0 else f) + AxisDelta(Deliver(before, ds[n]).1, axis);
    }
  }

  lemma {:induction false} DeliveryKeeps(d: Dongle, x: Delivery, axis: nat, committed: seq<int>, forwarded: int,
                                         total: int)
    requires d.Shaped() && WholeReport(x.report) && axis < AXES && AxisKept(d.tracks[axis], committed, forwarded)
    requires x.report.Mouse? ==> x.report.body.totals[axis] == Low16(total)
    ensures AxisKept(Deliver(d, x).0.tracks[axis],
                     (if Resets(x) then [] else committed) + (if Commits(d, x) then [total] else []),
                     (if Resets(x) then 0 else forwarded) + AxisDelta(Deliver(d, x).1, axis))
  {
    if x.report.Mouse? {
      PointerKeeps(d, x, axis, committed, forwarded, total);
    } else {
      OtherMoves(d, x, axis);
      assert committed + [] == committed;
    }
  }

  /** For every pattern of losses, repeats, silences and refused writes: the motion the sink took on
      an axis since the last silence is the last committed total less the first, across 16-bit wrap,
      while committed totals stay within the cap of each other. */
  lemma {:induction false} HostMotion(start: Dongle, ds: seq<Delivery>, axis: nat, truth: seq<int>)
    requires start.Shaped() && Whole(ds) && |truth| == |ds| && axis < AXES && !start.tracks[axis].valid
    requires Carries(ds, axis, truth) && Close(Committed(start, ds, truth))
    ensures var c := Committed(start, ds, truth);
      Forwarded(start, ds, axis) == if c == [] then 0 else c[|c| - 1] - c[0]
  {
    var d, c, f := AxisInvariant(start, ds, axis, truth);
  }

  /** And only then: if the motion is right at every moment of a run, no two totals committed one after
      the other without a silence between them were further apart than the cap. */
  lemma {:induction false} HostMotionOnlyIfClose(start: Dongle, ds: seq<Delivery>, axis: nat, truth: seq<int>)
    requires start.Shaped() && Whole(ds) && |truth| == |ds| && axis < AXES && !start.tracks[axis].valid
    requires Carries(ds, axis, truth) && forall k :: 0 <= k <= |ds| ==> Conserved(start, ds[..k], axis, truth[..k])
    ensures Close(Committed(start, ds, truth))
  {
    if ds != [] {
      var n := |ds| - 1;
      forall k | 0 <= k <= n ensures Conserved(start, ds[..n][..k], axis, truth[..n][..k]) {
        assert ds[..n][..k] == ds[..k] && truth[..n][..k] == truth[..k];
      }
      HostMotionOnlyIfClose(start, ds[..n], axis, truth[..n]);
      assert ds[..|ds|] == ds && truth[..|ds|] == truth;
      LastOnlyIf(start, ds, axis, truth);
    }
  }

  lemma {:induction false} LastOnlyIf(start: Dongle, ds: seq<Delivery>, axis: nat, truth: seq<int>)
    requires start.Shaped() && Whole(ds) && |truth| == |ds| && axis < AXES && !start.tracks[axis].valid
    requires Carries(ds, axis, truth) && ds != [] && Conserved(start, ds, axis, truth)
    requires Close(Committed(start, ds[..|ds| - 1], truth[..|ds| - 1]))
    ensures Close(Committed(start, ds, truth))
  {
    var n := |ds| - 1;
    var d, c, f := AxisInvariant(start, ds[..n], axis, truth[..n]);
    LastDelivery(start, ds, axis, truth, d, c, f);
    CloseOnlyIf(d, ds[n], axis, c, f, truth[n]);
  }

  lemma {:induction false} LastDelivery(start: Dongle, ds: seq<Delivery>, axis: nat, truth: seq<int>, d: Dongle,
                                        c: seq<int>, f: int)
    requires start.Shaped() && Whole(ds) && |truth| == |ds| && axis < AXES && ds != []
    requires var n := |ds| - 1;
      && d == After(start, ds[..n]) && c == Committed(start, ds[..n], truth[..n])
      && f == Forwarded(start, ds[..n], axis)
    ensures var x, t := ds[|ds| - 1], truth[|ds| - 1];
      && Committed(start, ds, truth) == (if Resets(x) then [] else c) + (if Commits(d, x) then [t] else [])
      && Forwarded(start, ds, axis) == (if Resets(x) then 0 else f) + AxisDelta(Deliver(d, x).1, axis)
  {
  }

  /** The sums are right after one more delivery only if its total, if committed, is close to the last. */
  lemma {:induction false} CloseOnlyIf(d: Dongle, x: Delivery, axis: nat, committed: seq<int>, forwarded: int,
                                       total: int)
    requires d.Shaped() && WholeReport(x.report) && axis < AXES && AxisKept(d.tracks[axis], committed, forwarded)
    requires (x.report.Mouse? ==> x.report.body.totals[axis] == Low16(total)) && Close(committed)
    requires var c := (if Resets(x) then [] else committed) + (if Commits(d, x) then [total] else []);
      (if Resets(x) then 0 else forwarded) + AxisDelta(Deliver(d, x).1, axis)
      == if c == [] then 0 else c[|c| - 1] - c[0]
    ensures Close((if Resets(x) then [] else committed) + (if Commits(d, x) then [total] else []))
  {
    if !Resets(x) {
      if Commits(d, x) {
        CommitOnlyIf(d, x, axis, committed, forwarded, total);
      } else {
        assert committed + [] == committed;
      }
    }
  }

  lemma {:induction false} CommitOnlyIf(d: Dongle, x: Delivery, axis: nat, committed: seq<int>, forwarded: int,
                                        total: int)
    requires d.Shaped() && WholeReport(x.report) && axis < AXES && !x.silent && Commits(d, x)
    requires AxisKept(d.tracks[axis], committed, forwarded) && Close(committed)
    requires x.report.body.totals[axis] == Low16(total)
    requires committed != [] ==> forwarded + AxisDelta(Deliver(d, x).1, axis) == total - committed[0]
    ensures Close(committed + [total])
  {
    AxisMoves(d, x, axis);
    MissedCap(d.tracks[axis], committed, forwarded, total);
  }

  predicate Conserved(start: Dongle, ds: seq<Delivery>, axis: nat, truth: seq<int>)
    requires start.Shaped() && Whole(ds) && |truth| == |ds| && axis < AXES
  {
    var c := Committed(start, ds, truth);
    Forwarded(start, ds, axis) == if c == [] then 0 else c[|c| - 1] - c[0]
  }

  lemma {:induction false} MissedCap(track: Track, committed: seq<int>, forwarded: int, total: int)
    requires AxisKept(track, committed, forwarded) && Close(committed)
    requires committed != [] ==> forwarded + Turn(track, Low16(total)).1 == total - committed[0]
    ensures Close(committed + [total])
  {
    if committed != [] { TurnConserves(track, committed[|committed| - 1], total); }
  }

  // ---- payloads ----

  /** The reports of one payload arriving in turn; `silent` and `room` answer for each. */
  function Arrivals(reports: seq<Report>, silent: nat -> bool, room: nat -> bool): (ds: seq<Delivery>)
    ensures |ds| == |reports|
    ensures forall i :: 0 <= i < |ds| ==> ds[i] == Delivery(reports[i], silent(i), room(i))
  {
    if reports == [] then []
    else
      var n := |reports| - 1;
      Arrivals(reports[..n], silent, room) + [Delivery(reports[n], silent(n), room(n))]
  }

  lemma {:induction false} SplitIsHid(sizes: Sizes, b: seq<Byte>, offset: nat)
    requires offset <= |b|
    ensures AllHid(sizes, Split(sizes, b, offset))
    decreases |b| - offset
  {
    if WholeAt(sizes, b, offset) {
      var next := offset + ReportLength(sizes, b[offset]);
      assert b[offset..next][0] == b[offset];
      SplitIsHid(sizes, b, next);
    }
  }

  lemma {:induction false} HidIsWhole(sizes: Sizes, reports: seq<Report>, silent: nat -> bool, room: nat -> bool)
    requires AllHid(sizes, reports)
    ensures Whole(Arrivals(reports, silent, room))
  {
  }

  lemma {:induction false} OneMore(start: Dongle, reports: seq<Report>, r: Report, silent: nat -> bool,
                                   room: nat -> bool)
    requires start.Shaped() && Whole(Arrivals(reports, silent, room)) && WholeReport(r)
    ensures var ds, x := Arrivals(reports, silent, room), Delivery(r, silent(|reports|), room(|reports|));
      && Arrivals(reports + [r], silent, room) == ds + [x] && Whole(ds + [x])
      && After(start, ds + [x]) == Deliver(After(start, ds), x).0
      && Host(start, ds + [x]) == Host(start, ds) + Told(After(start, ds), x)
  {
    var ds, x := Arrivals(reports, silent, room), Delivery(r, silent(|reports|), room(|reports|));
    assert (reports + [r])[..|reports|] == reports;
    assert (ds + [x])[..|ds|] == ds;
  }

  class Receiver {
    const sizes: Sizes
    const tracks: array<Track>
    var buttons: Byte
    var keyboard: seq<Byte>
    var consumer: seq<Byte>

    ghost predicate Valid() reads this { tracks.Length == AXES }

    ghost function Value(): (d: Dongle)
      requires Valid()
      reads this, tracks
      ensures d.Shaped()
    {
      Dongle(tracks[..], buttons, keyboard, consumer)
    }

    constructor (sizes: Sizes, keyboard: seq<Byte>, consumer: seq<Byte>)
      ensures Valid() && fresh(tracks) && this.sizes == sizes
      ensures Value() == Dongle([FRESH, FRESH, FRESH, FRESH], 0, keyboard, consumer)
    {
      this.sizes := sizes;
      tracks := new Track[AXES](i => FRESH);
      buttons, this.keyboard, this.consumer := 0, keyboard, consumer;
    }

    method TotalsToDeltas(totals: seq<I16>, work: array<Track>) returns (deltas: seq<int>, moves: bool)
      requires |totals| == work.Length
      modifies work
      ensures work[..] == Turned(old(work[..]), totals)
      ensures deltas == Deltas(old(work[..]), totals) && moves == Moves(deltas)
    {
      ghost var was := work[..];
      deltas, moves := [], false;
      var axis := 0;
      while axis < work.Length
        invariant 0 <= axis <= work.Length
        invariant forall a :: 0 <= a < axis ==> work[a] == Turn(was[a], totals[a]).0
        invariant forall a :: axis <= a < work.Length ==> work[a] == was[a]
        invariant |deltas| == axis && forall a :: 0 <= a < axis ==> deltas[a] == Turn(was[a], totals[a]).1
        invariant moves == Moves(deltas)
      {
        var turned;
        if work[axis].valid { turned := TrackShortDelta(work[axis], totals[axis] as int); }
        else { turned := TrackDelta(work[axis], totals[axis] as int); }
        MovesMore(deltas, turned.1);
        work[axis] := turned.0;
        deltas := deltas + [turned.1];
        moves := moves || turned.1 != 0;
        axis := axis + 1;
      }
      assert deltas == Deltas(was, totals) && work[..] == Turned(was, totals);
    }

    method ForgetAfterSilence(silent: bool)
      requires Valid()
      modifies tracks
      ensures tracks[..] == Forget(old(tracks[..]), silent)
    {
      if silent {
        var axis := 0;
        while axis < AXES
          invariant 0 <= axis <= AXES
          invariant forall a :: 0 <= a < AXES ==>
                  tracks[a] == if a < axis then old(tracks[a]).(valid := false) else old(tracks[a])
        {
          tracks[axis] := tracks[axis].(valid := false);
          axis := axis + 1;
        }
      }
      assert tracks[..] == Forget(old(tracks[..]), silent);
    }

    /** A busy sink loses no motion: the working copy is dropped. */
    method DeliverPointer(body: Body, silent: bool, room: bool) returns (told: Option<Usb>)
      requires Valid() && |body.totals| == AXES
      modifies this`buttons, tracks
      ensures Valid() && (Value(), told) == AfterPointer(old(Value()), body, silent, room)
    {
      ForgetAfterSilence(silent);
      ghost var before := tracks[..];
      var current := tracks[..];
      var work := new Track[AXES](i requires 0 <= i < |current| => current[i]);
      assert work[..] == before;
      var deltas, moves := TotalsToDeltas(body.totals, work);
      told := None;
      if moves || body.buttons != buttons {
        if !room {
          assert tracks[..] == before;
          return;
        }
        told := Some(PointerUsb(body.buttons, deltas, body.buttons == buttons));
        buttons := body.buttons;
      }
      forall i | 0 <= i < AXES { tracks[i] := work[i]; }
      assert tracks[..] == work[..] == Turned(before, body.totals);
      assert before == Forget(old(Value()).tracks, silent);
      assert PointerNews(old(Value()), body, silent) == (moves || body.buttons != old(buttons));
    }

    method DeliverReport(report: Report, room: bool) returns (told: Option<Usb>)
      requires Valid() && (report.Keyboard? || report.Consumer?)
      modifies this`keyboard, this`consumer
      ensures Valid() && forall silent :: (Value(), told) == Deliver(old(Value()), Delivery(report, silent, room))
    {
      var delivered := if report.Keyboard? then keyboard else consumer;
      if report.rest == delivered || !room { return None; }
      if report.Keyboard? { keyboard := report.rest; } else { consumer := report.rest; }
      told := Some(StateUsb(report));
    }

    method DeliverOne(report: Report, silent: bool, room: bool) returns (told: Option<Usb>)
      requires Valid() && IsHid(sizes, report)
      modifies this`buttons, this`keyboard, this`consumer, tracks
      ensures Valid() && (Value(), told) == Deliver(old(Value()), Delivery(report, silent, room))
      ensures Told(old(Value()), Delivery(report, silent, room)) == if told.Some? then [told.value] else []
    {
      if report.Mouse? { told := DeliverPointer(report.body, silent, room); }
      else { told := DeliverReport(report, room); }
    }

    /** One more report, once `got` are delivered. */
    method DeliverMore(report: Report, count: nat, silent: nat -> bool, room: nat -> bool, taken: seq<Usb>,
                       ghost start: Dongle, ghost got: seq<Report>) returns (host: seq<Usb>)
      requires Valid() && IsHid(sizes, report) && count == |got|
      requires Done(start, got, Value(), taken, silent, room)
      modifies this`buttons, this`keyboard, this`consumer, tracks
      ensures Valid() && Done(start, got + [report], Value(), host, silent, room)
    {
      DoneMore(start, got, report, Value(), taken, silent, room);
      var told := DeliverOne(report, silent(count), room(count));
      host := taken + if told.Some? then [told.value] else [];
    }

    /** The whole report at `offset`, once those before it are delivered. */
    method DeliverNext(b: seq<Byte>, offset: nat, count: nat, silent: nat -> bool, room: nat -> bool, taken: seq<Usb>,
                       ghost start: Dongle, ghost got: seq<Report>)
      returns (host: seq<Usb>, next: nat, ghost more: seq<Report>)
      requires Valid() && offset < |b| && WholeAt(sizes, b, offset) && count == |got|
      requires Progress(sizes, b, offset, start, got, Value(), taken, silent, room)
      modifies this`buttons, this`keyboard, this`consumer, tracks
      ensures Valid() && |more| == count + 1
      ensures offset < next <= |b| && Progress(sizes, b, next, start, more, Value(), host, silent, room)
    {
      next := offset + ReportLength(sizes, b[offset]);
      var report := Get(sizes, b[offset..next]);
      SplitMore(sizes, b, offset, got);
      more := got + [report];
      host := DeliverMore(report, count, silent, room, taken, start, got);
    }

    /** One payload: every whole report up to the first unknown or cut short. */
    method DeliverPayload(b: seq<Byte>, silent: nat -> bool, room: nat -> bool) returns (host: seq<Usb>)
      requires Valid()
      modifies this`buttons, this`keyboard, this`consumer, tracks
      ensures Valid()
      ensures Done(old(Value()), Split(sizes, b, 0), Value(), host, silent, room)
    {
      ghost var start, got: seq<Report> := Value(), [];
      host := [];
      var offset, count := 0, 0;
      while WholeAt(sizes, b, offset)
        invariant 0 <= offset <= |b| && count == |got| && Valid()
        invariant Progress(sizes, b, offset, start, got, Value(), host, silent, room)
        decreases |b| - offset
      {
        host, offset, got := DeliverNext(b, offset, count, silent, room, host, start, got);
        count := count + 1;
      }
      Finished(sizes, b, offset, start, got, Value(), host, silent, room);
    }
  }

  /** The reports before `offset` are delivered. */
  ghost predicate Progress(sizes: Sizes, b: seq<Byte>, offset: nat, start: Dongle, got: seq<Report>, now: Dongle,
                           host: seq<Usb>, silent: nat -> bool, room: nat -> bool)
    requires offset <= |b|
  {
    got + Split(sizes, b, offset) == Split(sizes, b, 0) && Done(start, got, now, host, silent, room)
  }

  /** Delivering `got` in turn brought `start` to `now` and gave the sink `host`. */
  ghost predicate Done(start: Dongle, got: seq<Report>, now: Dongle, host: seq<Usb>, silent: nat -> bool,
                       room: nat -> bool) {
    var ds := Arrivals(got, silent, room);
    && start.Shaped() && Whole(ds) && now == After(start, ds) && host == Host(start, ds)
  }

  lemma {:induction false} DoneMore(start: Dongle, got: seq<Report>, r: Report, now: Dongle, host: seq<Usb>,
                                    silent: nat -> bool, room: nat -> bool)
    requires Done(start, got, now, host, silent, room) && WholeReport(r)
    ensures now.Shaped()
    ensures var x := Delivery(r, silent(|got|), room(|got|));
      Done(start, got + [r], Deliver(now, x).0, host + Told(now, x), silent, room)
  {
    OneMore(start, got, r, silent, room);
  }

  lemma {:induction false} SplitMore(sizes: Sizes, b: seq<Byte>, offset: nat, got: seq<Report>)
    requires offset < |b| && WholeAt(sizes, b, offset)
    ensures var next := offset + ReportLength(sizes, b[offset]);
      var r := Get(sizes, b[offset..next]);
      && IsHid(sizes, r) && WholeReport(r)
      && (got + [r]) + Split(sizes, b, next) == got + Split(sizes, b, offset)
  {
    SplitIsHid(sizes, b, offset);
    assert IsHid(sizes, Split(sizes, b, offset)[0]);
  }

  lemma {:induction false} Finished(sizes: Sizes, b: seq<Byte>, offset: nat, start: Dongle, got: seq<Report>,
                                    now: Dongle,
                                    host: seq<Usb>, silent: nat -> bool, room: nat -> bool)
    requires offset <= |b| && !WholeAt(sizes, b, offset)
    requires Progress(sizes, b, offset, start, got, now, host, silent, room)
    ensures Done(start, Split(sizes, b, 0), now, host, silent, room)
  {
    assert got + [] == got;
  }

  lemma {:induction false} MovesMore(deltas: seq<int>, delta: int)
    ensures Moves(deltas + [delta]) == (Moves(deltas) || delta != 0)
  {
    if Moves(deltas) {
      var a :| 0 <= a < |deltas| && deltas[a] != 0;
      assert (deltas + [delta])[a] != 0;
    } else if delta != 0 {
      assert (deltas + [delta])[|deltas|] != 0;
    }
  }
}
