/** Which channel a decision masks, how soon a degraded one goes, and what a channel earns while it is
    live (src/hop_central.c:285-343, src/hop_central.c:446-480). */
module HopLadder {
  import opened Common
  import opened HopPolicy
  import opened HopCentral

  // ---- one decision ----

  /** The pending channels that may be masked: no anchors, and bad enough. */
  function Hot(cfg: Config, h: Hop): (s: set<nat>)
    requires h.Shaped(cfg.pool)
    ensures forall c :: c in s <==> c < cfg.pool && c in h.pending && c !in cfg.anchors && h.bad[c] >= cfg.maskThreshold
    ensures s <= h.pending
  {
    set c | c in h.pending && c < cfg.pool && c !in cfg.anchors && h.bad[c] >= cfg.maskThreshold
  }

  /** Above the floor, with a channel bad enough, the worst of them is masked and no other, the lowest
      index first; otherwise none. */
  lemma {:induction false} BenchIff(cfg: Config, h: Hop)
    requires h.Shaped(cfg.pool) && h.pending <= Pool(cfg.pool)
    ensures var r := Bench(cfg, h);
      if |h.pending| > cfg.minActive && Hot(cfg, h) != {}
      then exists w :: w in Hot(cfg, h) && r.pending == h.pending - {w} && r.pendingValid
             && forall c :: c in Hot(cfg, h) ==> h.bad[c] <= h.bad[w] && (h.bad[c] == h.bad[w] ==> w <= c)
      else r == h
  {
    var w := WorstOf(cfg, h);
    WorstIsWorst(h.bad, h.pending, cfg.anchors, cfg.maskThreshold, cfg.pool);
    if |h.pending| > cfg.minActive && Hot(cfg, h) != {} {
      var c :| c in Hot(cfg, h);
      assert w in Hot(cfg, h);
    } else if w < cfg.pool {
      assert w in Hot(cfg, h);
    }
  }

  // ---- a degraded channel goes ----

  /** Polled windows that are all bad, without a hop. */
  predicate Degraded(windows: seq<Window>) {
    forall i :: 0 <= i < |windows| ==>
      windows[i].polled && windows[i].penalty > 0 && !windows[i].vote && !windows[i].escape
  }

  lemma {:induction false} ScoreLive(cfg: Config, h: Hop, w: Window)
    requires h.Shaped(cfg.pool) && w.polled && w.penalty > 0
    ensures var r := Score(h, cfg.pool, w);
      && r.bad[h.index] > Min(h.bad[h.index], 254) && r.pending == h.pending && r.index == h.index
      && forall c :: 0 <= c < cfg.pool && c != h.index ==> r.bad[c] == h.bad[c]
  {
  }

  lemma {:induction false} RevisitScores(cfg: Config, h: Hop, polled: bool)
    requires h.Shaped(cfg.pool)
    ensures var r := Revisit(cfg, h, polled);
      && r.index == h.index && h.pending <= r.pending
      && forall c :: 0 <= c < cfg.pool ==> r.bad[c] == if c in h.pending || c !in r.pending then h.bad[c] else 0
  {
  }

  lemma {:induction false} RevisitHot(cfg: Config, h: Hop, polled: bool)
    requires h.Shaped(cfg.pool) && cfg.maskThreshold > 0
    ensures Hot(cfg, Revisit(cfg, h, polled)) == Hot(cfg, h)
  {
    RevisitScores(cfg, h, polled);
  }

  lemma {:induction false} BenchScores(cfg: Config, h: Hop)
    requires h.Shaped(cfg.pool)
    ensures Bench(cfg, h).bad == h.bad && Bench(cfg, h).index == h.index
  {
  }

  /** Scores: the live channel of a polled window pays its penalty or decays by one, a channel that comes
      back from its wait starts at nothing, and no other score moves. */
  lemma {:induction false} TickScores(cfg: Config, h: Hop, w: Window, c: nat)
    requires Inv(cfg, h) && c < cfg.pool && h.bad[c] <= 255
    ensures var r, live := Tick(cfg, h, w), w.polled && c == h.index;
      && (!live && c in h.pending ==> r.bad[c] == h.bad[c])
      && (live && c in h.pending && w.penalty == 0 ==> r.bad[c] == if h.bad[c] > 0 then h.bad[c] - 1 else 0)
      && (live && c in h.pending && w.penalty > 0 ==> r.bad[c] == Min(h.bad[c] + w.penalty, 255))
      && (c !in h.pending && h.masked[c] + 1 >= Wait(cfg, h, c) ==> r.bad[c] == 0)
  {
    var h0 := Score(h, cfg.pool, w);
    ScoreInv(cfg, h, w);
    RevisitScores(cfg, h0, w.polled);
    BenchScores(cfg, Revisit(cfg, h0, w.polled));
    TickBad(cfg, h, w);
    assert Wait(cfg, h0, c) == Wait(cfg, h, c);
    if c !in h.pending { DueIs(cfg, h0, c); }
  }

  lemma {:induction false} TickBad(cfg: Config, h: Hop, w: Window)
    requires h.Shaped(cfg.pool) && cfg.pool > 0
    ensures Tick(cfg, h, w).bad == Bench(cfg, Revisit(cfg, Score(h, cfg.pool, w), w.polled)).bad
  {
  }

  /** The channel is live, and its score is at least `n` or it is bad enough already. */
  ghost predicate Failing(cfg: Config, h: Hop, c: nat, n: nat) {
    && Inv(cfg, h) && 0 < cfg.maskThreshold <= 255 && c == h.index && c !in cfg.anchors
    && h.bad[c] >= Min(n, cfg.maskThreshold)
  }

  /** A bad window without a hop, piece by piece. */
  lemma {:induction false} BadTick(cfg: Config, h: Hop, w: Window) returns (h1: Hop)
    requires Inv(cfg, h) && w.polled && w.penalty > 0 && !w.vote && !w.escape && cfg.maskThreshold > 0
    ensures Inv(cfg, h1) && Tick(cfg, h, w) == Bench(cfg, h1) && Inv(cfg, Tick(cfg, h, w))
    ensures h1.index == h.index && h.pending <= h1.pending && Hot(cfg, h1) == Hot(cfg, Score(h, cfg.pool, w))
    ensures h.index in h.pending ==> h1.bad[h.index] == Score(h, cfg.pool, w).bad[h.index]
  {
    var h0 := Score(h, cfg.pool, w);
    ScoreInv(cfg, h, w);
    RevisitInv(cfg, h0, w.polled);
    RevisitHot(cfg, h0, w.polled);
    RevisitScores(cfg, h0, w.polled);
    h1 := Revisit(cfg, h0, w.polled);
    BenchInv(cfg, h1);
  }

  /** The channel is out of the mask, or the mask is at its floor. */
  ghost predicate Gone(cfg: Config, h: Hop, c: nat) { c !in h.pending || |h.pending| <= cfg.minActive }

  /** Each bad window raises the live channel's score; once it is bad enough each masks a channel that
      is, and no new one becomes so. */
  lemma {:induction false} FailingTick(cfg: Config, h: Hop, w: Window, c: nat, n: nat)
    requires Failing(cfg, h, c, n) && c in h.pending && w.polled && w.penalty > 0 && !w.vote && !w.escape
    ensures var r := Tick(cfg, h, w);
      && (Gone(cfg, r, c) || Failing(cfg, r, c, n + 1))
      && (n >= cfg.maskThreshold && !Gone(cfg, r, c) ==> |Hot(cfg, r)| < |Hot(cfg, h)|)
  {
    var h1 := BadTick(cfg, h, w);
    BenchFailing(cfg, h, h1, w, c, n);
    if n >= cfg.maskThreshold && !Gone(cfg, Bench(cfg, h1), c) { BenchHot(cfg, h, h1, w, c, n); }
  }

  lemma {:induction false} BenchFailing(cfg: Config, h: Hop, h1: Hop, w: Window, c: nat, n: nat)
    requires Failing(cfg, h, c, n) && c in h.pending && w.polled && w.penalty > 0
    requires Inv(cfg, h1) && Inv(cfg, Bench(cfg, h1)) && h1.index == h.index
    requires h1.bad[h.index] == Score(h, cfg.pool, w).bad[h.index]
    ensures Failing(cfg, Bench(cfg, h1), c, n + 1)
  {
    ScoreLive(cfg, h, w);
    BenchScores(cfg, h1);
  }

  lemma {:induction false} BenchHot(cfg: Config, h: Hop, h1: Hop, w: Window, c: nat, n: nat)
    requires Failing(cfg, h, c, n) && c in h.pending && w.polled && w.penalty > 0
    requires Inv(cfg, h1) && Hot(cfg, h1) == Hot(cfg, Score(h, cfg.pool, w))
    requires n >= cfg.maskThreshold && !Gone(cfg, Bench(cfg, h1), c)
    ensures |Hot(cfg, Bench(cfg, h1))| < |Hot(cfg, h)|
  {
    ScoreHot(cfg, h, w);
    assert c in Hot(cfg, h);
    BenchCools(cfg, h1, c);
  }

  lemma {:induction false} ScoreHot(cfg: Config, h: Hop, w: Window)
    requires h.Shaped(cfg.pool) && w.polled && w.penalty > 0
    requires h.index in h.pending && h.index !in cfg.anchors
    requires h.bad[h.index] >= cfg.maskThreshold && cfg.maskThreshold <= 255
    ensures Hot(cfg, Score(h, cfg.pool, w)) == Hot(cfg, h)
  {
    ScoreLive(cfg, h, w);
  }

  /** Above the floor a decision masks one of the channels that are bad enough. */
  lemma {:induction false} BenchCools(cfg: Config, h: Hop, c: nat)
    requires h.Shaped(cfg.pool) && h.pending <= Pool(cfg.pool) && c in Hot(cfg, h)
    requires |Bench(cfg, h).pending| > cfg.minActive
    ensures |Hot(cfg, Bench(cfg, h))| < |Hot(cfg, h)|
  {
    BenchIff(cfg, h);
    BenchScores(cfg, h);
    var r := Bench(cfg, h);
    if |h.pending| > cfg.minActive {
      var v :| v in Hot(cfg, h) && r.pending == h.pending - {v};
      assert Hot(cfg, r) == Hot(cfg, h) - {v};
    }
  }

  ghost predicate GoneWithin(cfg: Config, h: Hop, windows: seq<Window>, c: nat)
    requires h.Shaped(cfg.pool) && cfg.pool > 0
  {
    exists n :: 0 <= n <= |windows| && Gone(cfg, Ticks(cfg, h, windows[..n]), c)
  }

  lemma {:induction false} GoneLater(cfg: Config, h: Hop, windows: seq<Window>, c: nat)
    requires h.Shaped(cfg.pool) && cfg.pool > 0 && windows != []
    requires GoneWithin(cfg, Tick(cfg, h, windows[0]), windows[1..], c)
    ensures GoneWithin(cfg, h, windows, c)
  {
    var n :| 0 <= n <= |windows[1..]| && Gone(cfg, Ticks(cfg, Tick(cfg, h, windows[0]), windows[1..][..n]), c);
    TicksPrefix(cfg, h, windows, n);
  }

  lemma {:induction false} GoneNow(cfg: Config, h: Hop, windows: seq<Window>, c: nat)
    requires h.Shaped(cfg.pool) && cfg.pool > 0 && Gone(cfg, h, c)
    ensures GoneWithin(cfg, h, windows, c)
  {
    assert Ticks(cfg, h, windows[..0]) == h;
  }

  /** Windows a failing channel has left. */
  function Left(cfg: Config, h: Hop, n: nat): nat
    requires h.Shaped(cfg.pool)
  {
    if n < cfg.maskThreshold then cfg.maskThreshold - n + cfg.pool else |Hot(cfg, h)|
  }

  lemma {:induction false} LeftLess(cfg: Config, h: Hop, w: Window, c: nat, n: nat)
    requires Failing(cfg, h, c, n) && c in h.pending && w.polled && w.penalty > 0 && !w.vote && !w.escape
    ensures var r := Tick(cfg, h, w);
      && Left(cfg, h, n) > 0
      && (Gone(cfg, r, c) || (Failing(cfg, r, c, n + 1) && Left(cfg, r, n + 1) < Left(cfg, h, n)))
  {
    HotNotEmpty(cfg, h, c, n);
    FailingTick(cfg, h, w, c, n);
    if !Gone(cfg, Tick(cfg, h, w), c) { HotBound(cfg, Tick(cfg, h, w)); }
  }

  lemma {:induction false} FailingGoes(cfg: Config, h: Hop, windows: seq<Window>, c: nat, n: nat)
    requires Failing(cfg, h, c, n) && Degraded(windows) && |windows| >= Left(cfg, h, n)
    ensures GoneWithin(cfg, h, windows, c)
    decreases |windows|
  {
    if Gone(cfg, h, c) {
      GoneNow(cfg, h, windows, c);
    } else {
      LeftLess(cfg, h, windows[0], c, n);
      assert forall i :: 0 <= i < |windows[1..]| ==> windows[1..][i] == windows[i + 1];
      if Gone(cfg, Tick(cfg, h, windows[0]), c) {
        GoneNow(cfg, Tick(cfg, h, windows[0]), windows[1..], c);
      } else {
        FailingGoes(cfg, Tick(cfg, h, windows[0]), windows[1..], c, n + 1);
      }
      GoneLater(cfg, h, windows, c);
    }
  }

  lemma {:induction false} HotNotEmpty(cfg: Config, h: Hop, c: nat, n: nat)
    requires Failing(cfg, h, c, n) && c in h.pending
    ensures n >= cfg.maskThreshold ==> |Hot(cfg, h)| > 0
  {
    if n >= cfg.maskThreshold { assert c in Hot(cfg, h); }
  }

  lemma {:induction false} HotBound(cfg: Config, h: Hop)
    requires Inv(cfg, h)
    ensures |Hot(cfg, h)| <= cfg.pool
  {
    ProperSubsetSmaller(Hot(cfg, h), Pool(cfg.pool));
  }

  /** A live channel that stays bad is out of the pending mask within as many windows as the mask threshold
      and one for each channel of the pool, unless it is an anchor or the floor is met. */
  lemma {:induction false} DegradedIsMasked(cfg: Config, h: Hop, windows: seq<Window>)
    requires Inv(cfg, h) && 0 < cfg.maskThreshold <= 255 && h.index !in cfg.anchors
    requires Degraded(windows) && |windows| >= cfg.maskThreshold + cfg.pool
    ensures GoneWithin(cfg, h, windows, h.index)
  {
    FailingGoes(cfg, h, windows, h.index, 0);
  }

  // ---- what a channel earns while it is live ----

  predicate LiveIn(h: Hop, w: Window, c: nat) { w.polled && h.index == c }

  /** Polled windows of a run with `c` the live channel. */
  function LiveFor(cfg: Config, h: Hop, windows: seq<Window>, c: nat): nat
    requires h.Shaped(cfg.pool) && cfg.pool > 0
    decreases |windows|
  {
    if windows == [] then 0
    else (if LiveIn(h, windows[0], c) then 1 else 0) + LiveFor(cfg, Tick(cfg, h, windows[0]), windows[1..], c)
  }

  /** `c` is in the pending mask before and after every window. */
  ghost predicate Stays(cfg: Config, h: Hop, windows: seq<Window>, c: nat)
    requires h.Shaped(cfg.pool) && cfg.pool > 0
    decreases |windows|
  {
    c in h.pending && (windows == [] || Stays(cfg, Tick(cfg, h, windows[0]), windows[1..], c))
  }

  /** Served and level of a channel after `live` more live windows. */
  function Counted(restore: nat, served: nat, level: nat, live: nat): (nat, nat) {
    (if served >= restore then served else Min(restore, served + live),
     if served < restore <= served + live then 0 else level)
  }

  predicate Earned(restore: nat, served: nat, level: nat, live: nat, served': nat, level': nat) {
    (served', level') == Counted(restore, served, level, live)
  }

  /** What channel `c` earned from `h` to `r`. */
  ghost predicate EarnedAt(cfg: Config, h: Hop, live: nat, r: Hop, c: nat) {
    && h.Shaped(cfg.pool) && r.Shaped(cfg.pool) && c < cfg.pool
    && Earned(cfg.restoreWindows, h.served[c], h.level[c], live, r.served[c], r.level[c])
  }

  lemma {:induction false} EarnedMore(cfg: Config, h: Hop, a: nat, mid: Hop, b: nat, r: Hop, c: nat)
    requires EarnedAt(cfg, h, a, mid, c) && EarnedAt(cfg, mid, b, r, c)
    ensures EarnedAt(cfg, h, a + b, r, c)
  {
  }

  lemma {:induction false} RevisitEarns(cfg: Config, h: Hop, w: Window, c: nat)
    requires h.Shaped(cfg.pool) && c < cfg.pool && c in h.pending
    ensures var r := Revisit(cfg, Score(h, cfg.pool, w), w.polled);
      c in r.pending && Earned(cfg.restoreWindows, h.served[c], h.level[c], if LiveIn(h, w, c) then 1 else 0,
                               r.served[c], r.level[c])
  {
    var h0 := Score(h, cfg.pool, w);
    assert h0.served == h.served && h0.level == h.level && h0.index == h.index && h0.pending == h.pending;
    AllRevisited(cfg, h0, w.polled, c);
    RevisitedEarns(cfg, h0, w.polled, c, Revisit(cfg, h0, w.polled));
  }

  lemma {:induction false} RevisitedEarns(cfg: Config, h: Hop, polled: bool, c: nat, r: Hop)
    requires h.Shaped(cfg.pool) && r.Shaped(cfg.pool) && c < cfg.pool && c in h.pending
    requires Revisited(cfg, h, polled, c, r)
    ensures c in r.pending && Earned(cfg.restoreWindows, h.served[c], h.level[c],
                                     if polled && h.index == c then 1 else 0, r.served[c], r.level[c])
  {
  }

  /** Hops touch no counter. */
  lemma {:induction false} TickCounters(cfg: Config, h: Hop, w: Window)
    requires h.Shaped(cfg.pool) && cfg.pool > 0
    ensures var r, b := Tick(cfg, h, w), Bench(cfg, Revisit(cfg, Score(h, cfg.pool, w), w.polled));
      r.pending == b.pending && r.served == b.served && r.level == b.level && r.masked == b.masked
  {
  }

  lemma {:induction false} BenchCounters(cfg: Config, h: Hop, c: nat)
    requires h.Shaped(cfg.pool) && c < cfg.pool && c in h.pending
    ensures var r := Bench(cfg, h);
      if c in r.pending then r.served[c] == h.served[c] && r.level[c] == h.level[c]
      else r.served[c] == 0 && r.masked[c] == 0
           && r.level[c] == if h.served[c] < cfg.restoreWindows && h.level[c] < 6 then h.level[c] + 1 else h.level[c]
  {
  }

  lemma {:induction false} StayEarns(cfg: Config, h: Hop, w: Window, c: nat)
    requires h.Shaped(cfg.pool) && cfg.pool > 0 && c < cfg.pool && c in h.pending && c in Tick(cfg, h, w).pending
    ensures EarnedAt(cfg, h, if LiveIn(h, w, c) then 1 else 0, Tick(cfg, h, w), c)
  {
    RevisitEarns(cfg, h, w, c);
    BenchCounters(cfg, Revisit(cfg, Score(h, cfg.pool, w), w.polled), c);
    TickCounters(cfg, h, w);
  }

  /** While a channel stays in the mask its live windows are counted up to the restore period, and reaching
      it clears the level. */
  lemma {:induction false} StaysEarns(cfg: Config, h: Hop, windows: seq<Window>, c: nat) returns (r: Hop, live: nat)
    requires h.Shaped(cfg.pool) && cfg.pool > 0 && c < cfg.pool && Stays(cfg, h, windows, c)
    ensures r == Ticks(cfg, h, windows) && live == LiveFor(cfg, h, windows, c)
    ensures c in r.pending && EarnedAt(cfg, h, live, r, c)
    decreases |windows|
  {
    if windows == [] {
      r, live := h, 0;
    } else {
      var next, one := Tick(cfg, h, windows[0]), if LiveIn(h, windows[0], c) then 1 else 0;
      StayEarns(cfg, h, windows[0], c);
      r, live := StaysEarns(cfg, next, windows[1..], c);
      EarnedMore(cfg, h, one, next, live, r, c);
      live := one + live;
    }
  }

  /** What masking a channel costs it: a level, unless it served the whole restore period live since the
      last time; and its next wait is that level's. */
  lemma {:induction false} Escalates(cfg: Config, h: Hop, windows: seq<Window>, w: Window, c: nat)
    requires Inv(cfg, h) && cfg.restoreWindows > 0 && c < cfg.pool && h.served[c] == 0
    requires Stays(cfg, h, windows, c) && c !in Tick(cfg, Ticks(cfg, h, windows), w).pending
    ensures var before := Ticks(cfg, h, windows);
      var r, live := Tick(cfg, before, w), LiveFor(cfg, h, windows, c) + if LiveIn(before, w, c) then 1 else 0;
      && r.level[c] == (if live >= cfg.restoreWindows then 0 else Min(h.level[c] + 1, 6))
      && r.served[c] == 0 && r.masked[c] == 0
  {
    var before, live := StaysEarns(cfg, h, windows, c);
    EscalatesAt(cfg, h, before, w, c, live);
  }

  lemma {:induction false} EscalatesAt(cfg: Config, h: Hop, before: Hop, w: Window, c: nat, live: nat)
    requires cfg.pool > 0 && cfg.restoreWindows > 0 && EarnedAt(cfg, h, live, before, c)
    requires h.served[c] == 0 && h.level[c] <= 6 && c in before.pending && c !in Tick(cfg, before, w).pending
    ensures var r, total := Tick(cfg, before, w), live + if LiveIn(before, w, c) then 1 else 0;
      && r.level[c] == (if total >= cfg.restoreWindows then 0 else Min(h.level[c] + 1, 6))
      && r.served[c] == 0 && r.masked[c] == 0
  {
    MaskedCosts(cfg, before, w, c);
    EarnedMost(cfg.restoreWindows, h.level[c], live, before.served[c], before.level[c],
               if LiveIn(before, w, c) then 1 else 0);
  }

  lemma {:induction false} MaskedCosts(cfg: Config, h: Hop, w: Window, c: nat)
    requires h.Shaped(cfg.pool) && cfg.pool > 0 && c < cfg.pool && c in h.pending && c !in Tick(cfg, h, w).pending
    ensures var r := Tick(cfg, h, w);
      var e := Counted(cfg.restoreWindows, h.served[c], h.level[c], if LiveIn(h, w, c) then 1 else 0);
      && r.level[c] == (if e.0 < cfg.restoreWindows && e.1 < 6 then e.1 + 1 else e.1)
      && r.served[c] == 0 && r.masked[c] == 0
  {
    RevisitEarns(cfg, h, w, c);
    BenchCounters(cfg, Revisit(cfg, Score(h, cfg.pool, w), w.polled), c);
    TickCounters(cfg, h, w);
  }

  lemma {:induction false} EarnedMost(restore: nat, level: nat, live: nat, served': nat, level': nat, last: nat)
    requires restore > 0 && level <= 6 && last <= 1 && Earned(restore, 0, level, live, served', level')
    ensures var e := Counted(restore, served', level', last);
      (if e.0 < restore && e.1 < 6 then e.1 + 1 else e.1) == if live + last >= restore then 0 else Min(level + 1, 6)
  {
  }

  // ---- the boot survey ----

  /** What boot leaves out beyond the stored mask is loud, the loudest first; it stops at the floor or when
      nothing loud is left, and a reduced mask starts with an epoch of its own. */
  lemma {:induction false} BootSurveyed(cfg: Config, persisted: Option<set<nat>>, energy: seq<int>, threshold: int)
    requires cfg.Valid() && |energy| == cfg.pool
    ensures var h, allowed := Boot(cfg, persisted, energy, threshold), Allowed(cfg, persisted);
      && h.pending <= allowed
      && (forall c: nat :: c in allowed - h.pending ==> c < cfg.pool && c !in cfg.anchors && energy[c] >= threshold)
      && (forall c: nat, d: nat ::
            c in allowed - h.pending && d in h.pending - cfg.anchors && d < cfg.pool && energy[d] >= threshold ==>
              energy[d] <= energy[c])
      && (|h.pending| <= cfg.minActive
          || forall d: nat :: d in h.pending - cfg.anchors && d < cfg.pool ==> energy[d] < threshold)
      && h.epoch == (if h.pending == Pool(cfg.pool) then 0 else 1)
  {
    var allowed := Allowed(cfg, persisted);
    var pending := Surveyed(energy, allowed, cfg.anchors, cfg.minActive, threshold);
    SurveyVerdict(energy, allowed, cfg.anchors, cfg.minActive, threshold);
    BootPending(cfg, persisted, energy, threshold);
    BootWithPending(cfg, pending);
  }

  lemma {:induction false} BootWithPending(cfg: Config, pending: set<nat>)
    requires cfg.pool > 0 && pending <= Pool(cfg.pool)
    ensures BootWith(cfg, pending).pending == pending
    ensures BootWith(cfg, pending).epoch == if pending == Pool(cfg.pool) then 0 else 1
  {
    if |pending| == cfg.pool { FullPool(pending, cfg.pool); }
  }

  /** The stored mask counts: at boot a channel is allowed exactly if it is stored, or an anchor, or nothing
      is stored. */
  lemma {:induction false} AllowedIff(cfg: Config, persisted: Option<set<nat>>, c: nat)
    ensures c in Allowed(cfg, persisted)
       <==> c < cfg.pool && (persisted == None || c in cfg.anchors || (persisted.Some? && c in persisted.value))
  {
  }
}
