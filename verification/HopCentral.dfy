/** The central's hop engine: adaptive mask, retest ladder, epoch (src/hop_central.c:222-343,
    src/hop_central.c:382-480). */
module HopCentral {
  import opened Common
  import opened Bitmap
  import opened HopPolicy

  const EPOCHS := 256
  const U16_TURN := 0x1_0000
  const CHANNEL_BAD_DECAY := 1

  datatype Config = Config(pool: nat, anchors: set<nat>, minActive: nat, maskThreshold: nat, restoreWindows: nat)
  {
    ghost predicate Valid() {
      && 1 < pool < 255
      && anchors != {} && (forall c :: c in anchors ==> c < pool)
      && restoreWindows <= U16_MAX
    }
  }

  datatype Hop = Hop(epoch: nat, index: nat, active: set<nat>, pending: set<nat>, pendingValid: bool,
                     bad: seq<nat>, masked: seq<nat>, served: seq<nat>, level: seq<nat>)
  {
    predicate Shaped(pool: nat) {
      |bad| == |masked| == |served| == |level| == pool && index < pool
    }
  }

  // ---- one decision tick ----

  /** What the radio saw in a window: whether any pipe polled, the window's penalty, and the two
      reasons to hop. */
  datatype Window = Window(polled: bool, penalty: nat, vote: bool, escape: bool)

  function Score(h: Hop, pool: nat, w: Window): (r: Hop)
    requires h.Shaped(pool)
    ensures r.Shaped(pool)
  {
    if !w.polled then h
    else h.(bad := h.bad[h.index := ScoreUpdate(h.bad[h.index], w.penalty, CHANNEL_BAD_DECAY)])
  }

  predicate Due(cfg: Config, h: Hop, c: nat)
    requires h.Shaped(cfg.pool)
  {
    c < cfg.pool && c !in h.pending && (h.masked[c] + 1) % U16_TURN >= RetestThreshold(cfg.restoreWindows, h.level[c])
  }

  predicate Serves(cfg: Config, h: Hop, polled: bool, c: nat)
    requires h.Shaped(cfg.pool) && c < cfg.pool
  {
    c in h.pending && c == h.index && polled && h.served[c] < cfg.restoreWindows
  }

  /** Masked channels wait out their retest; a live served channel earns its level back. */
  function Revisit(cfg: Config, h: Hop, polled: bool): (r: Hop)
    requires h.Shaped(cfg.pool)
    ensures r.Shaped(cfg.pool)
    ensures forall c :: 0 <= c < cfg.pool ==> (c in r.pending <==> c in h.pending || Due(cfg, h, c))
  {
    h.(pending := h.pending + (set c | c in Pool(cfg.pool) && Due(cfg, h, c)),
       pendingValid := h.pendingValid || exists c :: 0 <= c < cfg.pool && Due(cfg, h, c),
       bad := seq(cfg.pool, c requires 0 <= c < cfg.pool => if Due(cfg, h, c) then 0 else h.bad[c]),
       masked := seq(cfg.pool, c requires 0 <= c < cfg.pool =>
         if c in h.pending then h.masked[c] else if Due(cfg, h, c) then 0 else (h.masked[c] + 1) % U16_TURN),
       served := seq(cfg.pool, c requires 0 <= c < cfg.pool =>
         if Serves(cfg, h, polled, c) then h.served[c] + 1 else h.served[c]),
       level := seq(cfg.pool, c requires 0 <= c < cfg.pool =>
         if Serves(cfg, h, polled, c) && h.served[c] + 1 >= cfg.restoreWindows then 0 else h.level[c]))
  }

  function WorstOf(cfg: Config, h: Hop): (w: nat)
    requires h.Shaped(cfg.pool)
    ensures w < cfg.pool ==> w in h.pending && w !in cfg.anchors && h.bad[w] >= cfg.maskThreshold
  {
    Worst(h.bad, h.pending, cfg.anchors, cfg.maskThreshold, cfg.pool)
  }

  /** Masks the worst channel while more than the floor are pending. */
  function Bench(cfg: Config, h: Hop): (r: Hop)
    requires h.Shaped(cfg.pool)
    ensures r.Shaped(cfg.pool)
  {
    var worst := WorstOf(cfg, h);
    if |h.pending| <= cfg.minActive || worst >= cfg.pool then h
    else Masked(cfg, h, worst).(pendingValid := true)
  }

  /** A channel masked before it has served its time again climbs the ladder. */
  function Masked(cfg: Config, h: Hop, c: nat): (r: Hop)
    requires h.Shaped(cfg.pool) && c < cfg.pool
    ensures r.Shaped(cfg.pool)
  {
    h.(pending := h.pending - {c}, masked := h.masked[c := 0],
       level := if h.served[c] < cfg.restoreWindows && h.level[c] < RETEST_LEVEL_MAX
                then h.level[c := h.level[c] + 1] else h.level,
       served := h.served[c := 0])
  }

  lemma {:induction false} BenchIs(cfg: Config, h: Hop)
    requires h.Shaped(cfg.pool) && |h.pending| > cfg.minActive && WorstOf(cfg, h) < cfg.pool
    ensures var worst, r := WorstOf(cfg, h), Bench(cfg, h);
      && r == h.(pending := h.pending - {worst}, pendingValid := true, masked := h.masked[worst := 0], level := r.level,
                 served := h.served[worst := 0])
      && r.level == if h.served[worst] < cfg.restoreWindows && h.level[worst] < RETEST_LEVEL_MAX
                    then h.level[worst := h.level[worst] + 1] else h.level
  {
  }

  /** The epoch is eight bits wide. */
  function NextEpoch(epoch: nat): (next: nat)
    ensures next < EPOCHS
  {
    Remainder(epoch + 1, EPOCHS)
  }

  function HopToNext(cfg: Config, h: Hop): (r: Hop)
    requires h.Shaped(cfg.pool) && cfg.pool > 0
    ensures r.Shaped(cfg.pool)
  {
    var active, epoch := if h.pendingValid then h.pending else h.active, NextEpoch(h.epoch);
    h.(active := active, pendingValid := false, epoch := epoch, index := ChannelFor(epoch, active, cfg.pool))
  }

  function Recompute(cfg: Config, h: Hop, polled: bool): (r: Hop)
    requires h.Shaped(cfg.pool)
    ensures r.Shaped(cfg.pool)
  {
    Bench(cfg, Revisit(cfg, h, polled))
  }

  function Tick(cfg: Config, h: Hop, w: Window): (r: Hop)
    requires h.Shaped(cfg.pool) && cfg.pool > 0
    ensures r.Shaped(cfg.pool)
  {
    var h1 := Recompute(cfg, Score(h, cfg.pool, w), w.polled);
    var h2 := if w.vote then HopToNext(cfg, h1) else h1;
    if w.escape then HopToNext(cfg, h2) else h2
  }

  function Ticks(cfg: Config, h: Hop, windows: seq<Window>): (r: Hop)
    requires h.Shaped(cfg.pool) && cfg.pool > 0
    ensures r.Shaped(cfg.pool)
    decreases |windows|
  {
    if windows == [] then h else Ticks(cfg, Tick(cfg, h, windows[0]), windows[1..])
  }

  function Zeros(n: nat): (s: seq<nat>)
    ensures |s| == n && forall i :: 0 <= i < n ==> s[i] == 0
  {
    seq(n, i => 0)
  }

  /** What a stored mask leaves of the pool: anchors are exempt. */
  function Allowed(cfg: Config, persisted: Option<set<nat>>): set<nat> {
    if persisted.None? then Pool(cfg.pool)
    else set c | c in Pool(cfg.pool) && (c in persisted.value || c in cfg.anchors)
  }

  function Fresh(cfg: Config): (h: Hop)
    ensures cfg.pool > 0 ==> h.Shaped(cfg.pool)
  {
    Hop(0, 0, Pool(cfg.pool), Pool(cfg.pool), false, Zeros(cfg.pool), Zeros(cfg.pool), Zeros(cfg.pool), Zeros(cfg.pool))
  }

  lemma {:induction false} FullPool(s: set<nat>, n: nat)
    requires s <= Pool(n) && |s| == n
    ensures s == Pool(n)
  {
    ProperSubsetSmaller(s, Pool(n));
  }

  /** A full pool starts as it is; anything less is adopted with an epoch of its own. */
  function BootWith(cfg: Config, pending: set<nat>): (h: Hop)
    requires cfg.pool > 0
    ensures h.Shaped(cfg.pool)
  {
    if |pending| == cfg.pool then Fresh(cfg)
    else Fresh(cfg).(epoch := 1, index := ChannelFor(1, pending, cfg.pool), active := pending, pending := pending)
  }

  /** A reduced pending mask is adopted with the next epoch. */
  function Adopted(cfg: Config, h: Hop): Hop
    requires cfg.pool > 0
  {
    if |h.pending| == cfg.pool then h
    else
      var epoch := NextEpoch(h.epoch);
      h.(active := h.pending, epoch := epoch, index := ChannelFor(epoch, h.pending, cfg.pool))
  }

  lemma {:induction false} BootWithIs(cfg: Config, h: Hop)
    requires cfg.pool > 0 && h == Fresh(cfg).(pending := h.pending) && h.pending <= Pool(cfg.pool)
    ensures BootWith(cfg, h.pending) == Adopted(cfg, h)
  {
    if |h.pending| == cfg.pool {
      FullPool(h.pending, cfg.pool);
    }
  }

  /** Before the first tick: the whole pool, or what the stored mask and the survey leave of it. */
  function Boot(cfg: Config, persisted: Option<set<nat>>, energy: seq<int>, threshold: int): (h: Hop)
    requires cfg.pool > 0 && |energy| == cfg.pool
    ensures h.Shaped(cfg.pool)
  {
    BootWith(cfg, Surveyed(energy, Allowed(cfg, persisted), cfg.anchors, cfg.minActive, threshold))
  }

  // ---- the invariant ----

  function Wait(cfg: Config, h: Hop, c: nat): (n: nat)
    requires h.Shaped(cfg.pool) && c < cfg.pool
    ensures n > 0
  {
    var t := RetestThreshold(cfg.restoreWindows, h.level[c]);
    if t == 0 then 1 else t
  }

  ghost predicate Inv(cfg: Config, h: Hop) {
    && cfg.Valid() && h.Shaped(cfg.pool) && h.epoch < EPOCHS
    && cfg.anchors <= h.active && cfg.anchors <= h.pending
    && h.active <= Pool(cfg.pool) && h.pending <= Pool(cfg.pool)
    && h.index == ChannelFor(h.epoch, h.active, cfg.pool) && h.index in h.active
    && (!h.pendingValid ==> h.active == h.pending)
    && Ladder(cfg, h)
  }

  /** No masked channel has waited past its retest threshold. */
  ghost predicate Ladder(cfg: Config, h: Hop)
    requires h.Shaped(cfg.pool)
  {
    && (forall c :: 0 <= c < cfg.pool && c !in h.pending ==> h.masked[c] < Wait(cfg, h, c))
    && (forall c :: 0 <= c < cfg.pool ==> h.level[c] <= RETEST_LEVEL_MAX)
  }

  lemma {:induction false} ScoreInv(cfg: Config, h: Hop, w: Window)
    requires Inv(cfg, h)
    ensures Inv(cfg, Score(h, cfg.pool, w))
  {
    var r := Score(h, cfg.pool, w);
    assert forall c :: 0 <= c < cfg.pool ==> Wait(cfg, r, c) == Wait(cfg, h, c);
  }

  lemma {:induction false} RevisitInv(cfg: Config, h: Hop, polled: bool)
    requires Inv(cfg, h)
    ensures Inv(cfg, Revisit(cfg, h, polled)) && h.pending <= Revisit(cfg, h, polled).pending
  {
    RevisitPending(cfg, h, polled);
    RevisitLadder(cfg, h, polled);
  }

  lemma {:induction false} RevisitAt(cfg: Config, h: Hop, polled: bool, c: nat)
    requires h.Shaped(cfg.pool) && c < cfg.pool
    ensures var r := Revisit(cfg, h, polled);
      && r.level[c] <= h.level[c]
      && (c !in h.pending ==> r.level[c] == h.level[c])
      && (c !in h.pending && Due(cfg, h, c) ==> r.bad[c] == 0)
      && (c !in h.pending && !Due(cfg, h, c) ==> r.masked[c] == (h.masked[c] + 1) % U16_TURN)
  {
  }

  /** The counter never wraps: it is below a threshold that fits 16 bits. */
  lemma {:induction false} WaitStep(masked: nat, threshold: nat)
    requires masked < (if threshold == 0 then 1 else threshold) && threshold <= U16_MAX
    requires (masked + 1) % U16_TURN < threshold
    ensures (masked + 1) % U16_TURN == masked + 1
  {
  }

  lemma {:induction false} RevisitMasked(cfg: Config, h: Hop, polled: bool, c: nat)
    requires cfg.Valid() && h.Shaped(cfg.pool) && Ladder(cfg, h) && c < cfg.pool && c !in h.pending
    ensures var r := Revisit(cfg, h, polled);
      if c in r.pending then r.bad[c] == 0
      else r.masked[c] == h.masked[c] + 1 && r.level[c] == h.level[c] && r.masked[c] < Wait(cfg, h, c)
  {
    RevisitAt(cfg, h, polled, c);
    if !Due(cfg, h, c) {
      WaitStep(h.masked[c], RetestThreshold(cfg.restoreWindows, h.level[c]));
    }
  }

  lemma {:induction false} RevisitLadder(cfg: Config, h: Hop, polled: bool)
    requires cfg.Valid() && h.Shaped(cfg.pool) && Ladder(cfg, h)
    ensures Ladder(cfg, Revisit(cfg, h, polled))
  {
    var r := Revisit(cfg, h, polled);
    forall c | 0 <= c < cfg.pool
      ensures c !in r.pending ==> r.masked[c] < Wait(cfg, r, c)
      ensures r.level[c] <= RETEST_LEVEL_MAX
    {
      RevisitAt(cfg, h, polled, c);
      if c !in r.pending {
        RevisitMasked(cfg, h, polled, c);
      }
    }
  }

  lemma {:induction false} RevisitPending(cfg: Config, h: Hop, polled: bool)
    requires cfg.Valid() && h.Shaped(cfg.pool) && h.pending <= Pool(cfg.pool)
    ensures var r := Revisit(cfg, h, polled);
      && h.pending <= r.pending <= Pool(cfg.pool)
      && (!r.pendingValid ==> !h.pendingValid && r.pending == h.pending)
  {
    var r := Revisit(cfg, h, polled);
    if !r.pendingValid {
      assert forall c :: 0 <= c < cfg.pool ==> !Due(cfg, h, c);
    }
  }

  lemma {:induction false} BenchInv(cfg: Config, h: Hop)
    requires Inv(cfg, h)
    ensures Inv(cfg, Bench(cfg, h)) && |Bench(cfg, h).pending| >= Min(|h.pending|, cfg.minActive)
  {
    var r, worst := Bench(cfg, h), WorstOf(cfg, h);
    if |h.pending| > cfg.minActive && worst < cfg.pool {
      assert |h.pending - {worst}| == |h.pending| - 1;
      forall c | 0 <= c < cfg.pool && c !in r.pending
        ensures r.masked[c] < Wait(cfg, r, c)
      {
        assert c != worst ==> c !in h.pending && Wait(cfg, r, c) == Wait(cfg, h, c);
      }
    }
  }

  lemma {:induction false} HopInv(cfg: Config, h: Hop)
    requires Inv(cfg, h)
    ensures Inv(cfg, HopToNext(cfg, h)) && HopToNext(cfg, h).pending == h.pending
  {
    var r := HopToNext(cfg, h);
    var anchor :| anchor in cfg.anchors;
    assert anchor in r.active && anchor < cfg.pool;
    ChannelIsActive(r.epoch, r.active, cfg.pool);
    assert forall c :: 0 <= c < cfg.pool ==> Wait(cfg, r, c) == Wait(cfg, h, c);
  }

  lemma {:induction false} TickInv(cfg: Config, h: Hop, w: Window)
    requires Inv(cfg, h)
    ensures Inv(cfg, Tick(cfg, h, w)) && |Tick(cfg, h, w).pending| >= Min(|h.pending|, cfg.minActive)
  {
    var h0 := Score(h, cfg.pool, w);
    ScoreInv(cfg, h, w);
    var h1 := Revisit(cfg, h0, w.polled);
    RevisitInv(cfg, h0, w.polled);
    ProperSubsetSmaller(h0.pending, h1.pending);
    var h2 := Bench(cfg, h1);
    BenchInv(cfg, h1);
    HopInv(cfg, h2);
    HopInv(cfg, HopToNext(cfg, h2));
  }

  lemma {:induction false} BootPending(cfg: Config, persisted: Option<set<nat>>, energy: seq<int>, threshold: int)
    requires cfg.Valid() && |energy| == cfg.pool
    ensures var h := Boot(cfg, persisted, energy, threshold);
      && cfg.anchors <= h.pending <= Pool(cfg.pool) && h.active == h.pending && !h.pendingValid
      && Min(|Allowed(cfg, persisted)|, cfg.minActive) <= |h.pending| <= |Allowed(cfg, persisted)|
  {
    var allowed := Allowed(cfg, persisted);
    var pending := Surveyed(energy, allowed, cfg.anchors, cfg.minActive, threshold);
    SurveyVerdict(energy, allowed, cfg.anchors, cfg.minActive, threshold);
    ProperSubsetSmaller(pending, allowed);
    assert allowed <= Pool(cfg.pool);
    if |pending| == cfg.pool {
      FullPool(pending, cfg.pool);
    }
    assert cfg.anchors <= allowed * cfg.anchors;
  }

  lemma {:induction false} BootIndex(cfg: Config, h: Hop)
    requires cfg.Valid() && cfg.anchors <= h.active
    requires h.index == ChannelFor(h.epoch, h.active, cfg.pool)
            || (h.epoch == h.index == 0 && h.active == Pool(cfg.pool))
    ensures h.index == ChannelFor(h.epoch, h.active, cfg.pool) && h.index in h.active
  {
    var anchor :| anchor in cfg.anchors;
    assert anchor in h.active && anchor < cfg.pool;
    ChannelIsActive(h.epoch, h.active, cfg.pool);
    assert StepsToActive(0, Pool(cfg.pool), cfg.pool, cfg.pool) == 0;
  }

  /** Boot keeps the invariant for every stored mask and survey.  It respects the floor exactly when
      the stored mask, with the anchors, still does: the stored mask itself is not held to it. */
  lemma {:induction false} BootInv(cfg: Config, persisted: Option<set<nat>>, energy: seq<int>, threshold: int)
    requires cfg.Valid() && |energy| == cfg.pool
    ensures var h := Boot(cfg, persisted, energy, threshold);
      Inv(cfg, h) && (|h.pending| >= cfg.minActive <==> |Allowed(cfg, persisted)| >= cfg.minActive)
  {
    BootPending(cfg, persisted, energy, threshold);
    BootIndex(cfg, Boot(cfg, persisted, energy, threshold));
  }

  /** The mask invariant over every run: anchors in both masks, the index the one the epoch and the
      active mask give and itself active; and the pending count never falls below the smaller of
      where it started and the floor. */
  lemma {:induction false} MaskInvariant(cfg: Config, h: Hop, windows: seq<Window>)
    requires Inv(cfg, h)
    ensures Inv(cfg, Ticks(cfg, h, windows))
    ensures |Ticks(cfg, h, windows).pending| >= Min(|h.pending|, cfg.minActive)
    decreases |windows|
  {
    if windows != [] {
      TickInv(cfg, h, windows[0]);
      MaskInvariant(cfg, Tick(cfg, h, windows[0]), windows[1..]);
    }
  }

  // ---- the retest ladder ----

  /** What the retest ladder needs of a configuration: a channel just restored, its score cleared,
      must not be the one masked next. */
  predicate LadderWorks(cfg: Config) {
    cfg.maskThreshold > 0 || cfg.anchors == Pool(cfg.pool) || cfg.minActive >= cfg.pool
  }

  /** Channel `c` is back exactly when its wait is over: in no window before, and in that one. */
  ghost predicate ReturnsOnTime(cfg: Config, h: Hop, windows: seq<Window>, c: nat)
    requires cfg.Valid() && h.Shaped(cfg.pool) && c < cfg.pool
  {
    h.masked[c] < Wait(cfg, h, c) && ReturnsAt(cfg, h, windows, c, Wait(cfg, h, c) - h.masked[c])
  }

  ghost predicate ReturnsAt(cfg: Config, h: Hop, windows: seq<Window>, c: nat, n: nat)
    requires cfg.Valid() && h.Shaped(cfg.pool)
  {
    && n <= |windows| && c in Ticks(cfg, h, windows[..n]).pending
    && forall m :: 0 <= m < n ==> c !in Ticks(cfg, h, windows[..m]).pending
  }

  /** Every masked channel is back in the mask when its retest threshold is reached and not before,
      whatever the windows. */
  ghost predicate AlwaysReturns(cfg: Config)
    requires cfg.Valid()
  {
    forall h, windows, c: nat :: Inv(cfg, h) && c < cfg.pool && c !in h.pending
        && |windows| >= Wait(cfg, h, c) - h.masked[c]
      ==> ReturnsOnTime(cfg, h, windows, c)
  }

  lemma {:induction false} BenchKeeps(cfg: Config, h: Hop, c: nat)
    requires h.Shaped(cfg.pool) && c < cfg.pool
    ensures var r := Bench(cfg, h);
      && (c in h.pending && (h.bad[c] < cfg.maskThreshold || |h.pending| <= cfg.minActive) ==> c in r.pending)
      && (c !in h.pending ==> c !in r.pending && r.masked[c] == h.masked[c] && r.level[c] == h.level[c])
  {
  }

  lemma {:induction false} PoolBounds(s: set<nat>, n: nat)
    requires s <= Pool(n)
    ensures |s| <= n
  {
    ProperSubsetSmaller(s, Pool(n));
  }

  /** One window of a masked channel's wait: it stays masked until the last. */
  lemma {:induction false} TickMasked(cfg: Config, h: Hop, w: Window, c: nat)
    requires Inv(cfg, h) && c < cfg.pool && c !in h.pending
    ensures var r := Tick(cfg, h, w);
      if h.masked[c] + 1 < Wait(cfg, h, c)
      then c !in r.pending && r.masked[c] == h.masked[c] + 1 && Wait(cfg, r, c) == Wait(cfg, h, c)
      else LadderWorks(cfg) ==> c in r.pending
  {
    var h0 := Score(h, cfg.pool, w);
    ScoreInv(cfg, h, w);
    RevisitInv(cfg, h0, w.polled);
    PoolBounds(Revisit(cfg, h0, w.polled).pending, cfg.pool);
    RevisitMasked(cfg, h0, w.polled, c);
    BenchKeeps(cfg, Revisit(cfg, h0, w.polled), c);
    assert Wait(cfg, h0, c) == Wait(cfg, h, c);
    DueIs(cfg, h0, c);
  }

  /** The wait is over with this window. */
  lemma {:induction false} DueIs(cfg: Config, h: Hop, c: nat)
    requires Inv(cfg, h) && c < cfg.pool && c !in h.pending
    ensures Due(cfg, h, c) <==> h.masked[c] + 1 >= Wait(cfg, h, c)
  {
  }

  /** A masked channel is back when its retest threshold is reached, and in no window before. */
  lemma {:induction false} MaskedReturns(cfg: Config, h: Hop, windows: seq<Window>, c: nat)
    requires Inv(cfg, h) && c < cfg.pool && c !in h.pending && LadderWorks(cfg)
    requires |windows| >= Wait(cfg, h, c) - h.masked[c]
    ensures ReturnsOnTime(cfg, h, windows, c)
  {
    ReturnsAfter(cfg, h, windows, c, Wait(cfg, h, c) - h.masked[c]);
  }

  /** `n` windows of the wait are left. */
  ghost predicate WaitsFor(cfg: Config, h: Hop, c: nat, n: nat) {
    Inv(cfg, h) && c < cfg.pool && c !in h.pending && n > 0 && h.masked[c] + n == Wait(cfg, h, c)
  }

  lemma {:induction false} WaitsOn(cfg: Config, h: Hop, w: Window, c: nat, n: nat)
    requires WaitsFor(cfg, h, c, n) && LadderWorks(cfg)
    ensures Inv(cfg, Tick(cfg, h, w))
    ensures if n == 1 then c in Tick(cfg, h, w).pending else WaitsFor(cfg, Tick(cfg, h, w), c, n - 1)
  {
    TickInv(cfg, h, w);
    TickMasked(cfg, h, w, c);
  }

  lemma {:induction false} ReturnsAfter(cfg: Config, h: Hop, windows: seq<Window>, c: nat, n: nat)
    requires WaitsFor(cfg, h, c, n) && LadderWorks(cfg) && |windows| >= n
    ensures ReturnsAt(cfg, h, windows, c, n)
    decreases n
  {
    var r := Tick(cfg, h, windows[0]);
    WaitsOn(cfg, h, windows[0], c, n);
    if n > 1 {
      ReturnsAfter(cfg, r, windows[1..], c, n - 1);
      ReturnsLater(cfg, h, windows, c, r, n - 1);
    } else {
      ReturnsNow(cfg, h, windows, c, r);
    }
  }

  lemma {:induction false} ReturnsNow(cfg: Config, h: Hop, windows: seq<Window>, c: nat, r: Hop)
    requires cfg.Valid() && h.Shaped(cfg.pool) && windows != [] && c !in h.pending
    requires r == Tick(cfg, h, windows[0]) && c in r.pending
    ensures ReturnsAt(cfg, h, windows, c, 1)
  {
    TicksPrefix(cfg, h, windows, 0);
    assert Ticks(cfg, h, windows[..0]) == h;
  }

  lemma {:induction false} ReturnsLater(cfg: Config, h: Hop, windows: seq<Window>, c: nat, r: Hop, n: nat)
    requires cfg.Valid() && h.Shaped(cfg.pool) && windows != [] && c !in h.pending
    requires r == Tick(cfg, h, windows[0]) && ReturnsAt(cfg, r, windows[1..], c, n)
    ensures ReturnsAt(cfg, h, windows, c, n + 1)
  {
    TicksPrefix(cfg, h, windows, n);
    forall m | 0 <= m < n + 1 ensures c !in Ticks(cfg, h, windows[..m]).pending {
      if m > 0 { TicksPrefix(cfg, h, windows, m - 1); } else { assert Ticks(cfg, h, windows[..m]) == h; }
    }
  }

  lemma {:induction false} TicksPrefix(cfg: Config, h: Hop, windows: seq<Window>, m: nat)
    requires h.Shaped(cfg.pool) && cfg.pool > 0 && m < |windows|
    ensures Ticks(cfg, h, windows[..m + 1]) == Ticks(cfg, Tick(cfg, h, windows[0]), windows[1..][..m])
  {
    assert windows[..m + 1][0] == windows[0];
    assert windows[..m + 1][1..] == windows[1..][..m];
  }

  // ---- a ladder that is stuck ----

  /** No score, the lowest free channel masked, and the floor met without it. */
  ghost predicate Stuck(cfg: Config, h: Hop, c: nat) {
    && h.Shaped(cfg.pool) && c < cfg.pool && h.pending <= Pool(cfg.pool)
    && c !in h.pending && c !in cfg.anchors && (forall d: nat :: d < c ==> d in cfg.anchors)
    && (forall d :: 0 <= d < cfg.pool ==> h.bad[d] == 0)
    && |h.pending| >= cfg.minActive
  }

  lemma {:induction false} ScoreStuck(cfg: Config, h: Hop, w: Window, c: nat)
    requires Stuck(cfg, h, c) && w.penalty == 0
    ensures Stuck(cfg, Score(h, cfg.pool, w), c)
  {
  }

  /** A restored channel without score is the first to be masked again. */
  lemma {:induction false} RestoredIsWorst(cfg: Config, h: Hop, c: nat)
    requires h.Shaped(cfg.pool) && c < cfg.pool && cfg.maskThreshold == 0
    requires c in h.pending && c !in cfg.anchors && (forall d: nat :: d < c ==> d in cfg.anchors)
    requires forall d :: 0 <= d < cfg.pool ==> h.bad[d] == 0
    ensures WorstOf(cfg, h) == c
  {
    WorstIsWorst(h.bad, h.pending, cfg.anchors, cfg.maskThreshold, cfg.pool);
    assert Maskable(h.bad, h.pending, cfg.anchors, cfg.maskThreshold, c);
  }

  lemma {:induction false} RevisitStuck(cfg: Config, h: Hop, polled: bool, c: nat)
    requires cfg.Valid() && Stuck(cfg, h, c)
    ensures var r := Revisit(cfg, h, polled);
      && r.pending <= Pool(cfg.pool) && (forall d :: 0 <= d < cfg.pool ==> r.bad[d] == 0)
      && |r.pending| >= cfg.minActive + if c in r.pending then 1 else 0
  {
    var r := Revisit(cfg, h, polled);
    RevisitPending(cfg, h, polled);
    ProperSubsetSmaller(h.pending, r.pending);
  }

  lemma {:induction false} BenchStuck(cfg: Config, h: Hop, c: nat)
    requires cfg.maskThreshold == 0 && h.Shaped(cfg.pool) && c < cfg.pool && h.pending <= Pool(cfg.pool)
    requires c !in cfg.anchors && (forall d: nat :: d < c ==> d in cfg.anchors)
    requires forall d :: 0 <= d < cfg.pool ==> h.bad[d] == 0
    requires |h.pending| >= cfg.minActive + if c in h.pending then 1 else 0
    ensures Stuck(cfg, Bench(cfg, h), c)
  {
    if c in h.pending { RestoredIsWorst(cfg, h, c); }
    if |h.pending| > cfg.minActive && WorstOf(cfg, h) < cfg.pool {
      BenchIs(cfg, h);
      assert |h.pending - {WorstOf(cfg, h)}| == |h.pending| - 1;
    }
  }

  lemma {:induction false} TickStuck(cfg: Config, h: Hop, w: Window, c: nat)
    requires cfg.Valid() && cfg.maskThreshold == 0 && Stuck(cfg, h, c) && w.penalty == 0
    ensures Stuck(cfg, Tick(cfg, h, w), c)
  {
    var h0 := Score(h, cfg.pool, w);
    ScoreStuck(cfg, h, w, c);
    RevisitStuck(cfg, h0, w.polled, c);
    BenchStuck(cfg, Revisit(cfg, h0, w.polled), c);
  }

  predicate Quiet(windows: seq<Window>) { forall i :: 0 <= i < |windows| ==> windows[i].penalty == 0 }

  lemma {:induction false} StuckForever(cfg: Config, h: Hop, windows: seq<Window>, c: nat)
    requires cfg.Valid() && cfg.maskThreshold == 0 && Stuck(cfg, h, c) && Quiet(windows)
    ensures c !in Ticks(cfg, h, windows).pending
    decreases |windows|
  {
    if windows != [] {
      TickStuck(cfg, h, windows[0], c);
      StuckForever(cfg, Tick(cfg, h, windows[0]), windows[1..], c);
    }
  }

  lemma {:induction false} OnlyAnchors(cfg: Config)
    requires cfg.Valid() && forall d: nat :: d < cfg.pool ==> d in cfg.anchors
    ensures cfg.anchors == Pool(cfg.pool)
  {
  }

  lemma {:induction false} LowestFree(cfg: Config, from: nat) returns (c: nat)
    requires cfg.Valid() && cfg.anchors != Pool(cfg.pool) && from <= cfg.pool
    requires forall d: nat :: d < from ==> d in cfg.anchors
    ensures c < cfg.pool && c !in cfg.anchors && forall d: nat :: d < c ==> d in cfg.anchors
    decreases cfg.pool - from
  {
    if from == cfg.pool {
      OnlyAnchors(cfg);
      assert false;
    }
    if from in cfg.anchors {
      c := LowestFree(cfg, from + 1);
    } else {
      c := from;
    }
  }

  lemma {:induction false} QuietSurvey(cfg: Config, mask: set<nat>, energy: seq<int>, threshold: int)
    requires forall i :: 0 <= i < |energy| ==> energy[i] < threshold
    ensures Surveyed(energy, mask, cfg.anchors, cfg.minActive, threshold) == mask
  {
  }

  /** A stored mask that leaves out just that channel boots the engine into the stuck state. */
  lemma {:induction false} BootStuck(cfg: Config, energy: seq<int>, threshold: int, c: nat)
    requires cfg.Valid() && cfg.minActive < cfg.pool && |energy| == cfg.pool
    requires forall i :: 0 <= i < |energy| ==> energy[i] < threshold
    requires c < cfg.pool && c !in cfg.anchors && forall d: nat :: d < c ==> d in cfg.anchors
    ensures Stuck(cfg, Boot(cfg, Some(Pool(cfg.pool) - {c}), energy, threshold), c)
  {
    var pending := Pool(cfg.pool) - {c};
    assert Allowed(cfg, Some(pending)) == pending;
    assert |pending| == cfg.pool - 1;
    QuietSurvey(cfg, pending, energy, threshold);
  }

  /** When the ladder cannot work, some boot leaves a channel out that quiet windows never restore. */
  lemma {:induction false} BootedOutForever(cfg: Config) returns (persisted: Option<set<nat>>, energy: seq<int>, c: nat)
    requires cfg.Valid() && !LadderWorks(cfg)
    ensures |energy| == cfg.pool && c < cfg.pool
    ensures var h := Boot(cfg, persisted, energy, 1);
      && Inv(cfg, h) && c !in h.pending
      && forall windows :: Quiet(windows) ==> c !in Ticks(cfg, h, windows).pending
  {
    c := LowestFree(cfg, 0);
    persisted, energy := Some(Pool(cfg.pool) - {c}), Repeat(cfg.pool, 0);
    BootInv(cfg, persisted, energy, 1);
    BootStuck(cfg, energy, 1, c);
    var h := Boot(cfg, persisted, energy, 1);
    forall windows | Quiet(windows) ensures c !in Ticks(cfg, h, windows).pending { StuckForever(cfg, h, windows, c); }
  }

  /** Masked channels always return in time exactly when the mask threshold is positive, or nothing
      but anchors is in the pool, or the floor is the whole pool. */
  lemma {:induction false} ReturnsIff(cfg: Config)
    requires cfg.Valid()
    ensures AlwaysReturns(cfg) <==> LadderWorks(cfg)
  {
    if LadderWorks(cfg) {
      forall h, windows, c: nat
          | Inv(cfg, h) && c < cfg.pool && c !in h.pending && |windows| >= Wait(cfg, h, c) - h.masked[c]
        ensures ReturnsOnTime(cfg, h, windows, c)
      {
        MaskedReturns(cfg, h, windows, c);
      }
    } else {
      var persisted, energy, c := BootedOutForever(cfg);
      NeverReturns(cfg, Boot(cfg, persisted, energy, 1), c);
    }
  }

  lemma {:induction false} NeverReturns(cfg: Config, h: Hop, c: nat)
    requires cfg.Valid() && Inv(cfg, h) && c < cfg.pool && c !in h.pending
    requires forall windows :: Quiet(windows) ==> c !in Ticks(cfg, h, windows).pending
    ensures !AlwaysReturns(cfg)
  {
    var windows := Repeat(Wait(cfg, h, c), Window(true, 0, false, false));
    assert !ReturnsOnTime(cfg, h, windows, c) by {
      forall n: nat | n <= |windows| ensures c !in Ticks(cfg, h, windows[..n]).pending { assert Quiet(windows[..n]); }
    }
  }

  /** The floor is not held at boot: an empty stored mask leaves the anchors alone. */
  lemma {:induction false} StoredMaskBelowFloor(cfg: Config, energy: seq<int>, threshold: int)
    requires cfg.Valid() && |energy| == cfg.pool && |cfg.anchors| < cfg.minActive
    ensures Boot(cfg, Some({}), energy, threshold).pending == cfg.anchors
    ensures |Boot(cfg, Some({}), energy, threshold).pending| < cfg.minActive
  {
    BootPending(cfg, Some({}), energy, threshold);
    assert Allowed(cfg, Some({})) == cfg.anchors;
    var h := Boot(cfg, Some({}), energy, threshold);
    ProperSubsetSmaller(cfg.anchors, h.pending);
  }

  // ---- the code ----

  class Engine {
    const pool: nat
    const minActive: nat
    const maskThreshold: nat
    const restoreWindows: nat
    const anchors: set<nat>
    var anchorMask: seq<bv8>
    var epoch: nat
    var index: nat
    var activeMask: seq<bv8>
    var pendingMask: seq<bv8>
    var pendingValid: bool
    var bad: seq<nat>
    var masked: seq<nat>
    var served: seq<nat>
    var level: seq<nat>

    function Cfg(): Config { Config(pool, anchors, minActive, maskThreshold, restoreWindows) }

    ghost predicate Valid()
      reads this
    {
      && 1 < pool < 255
      && |activeMask| == |pendingMask| == |anchorMask| == (pool + 7) / 8
      && Members(anchorMask, pool) == anchors
      && |bad| == |masked| == |served| == |level| == pool && index < pool
    }

    ghost function State(): (h: Hop)
      requires Valid()
      reads this
      ensures h.Shaped(pool)
    {
      Hop(epoch, index, Members(activeMask, pool), Members(pendingMask, pool), pendingValid, bad, masked, served, level)
    }

    /** The whole pool active, the anchors noted, nothing counted yet. */
    constructor (cfg: Config)
      requires cfg.Valid()
      ensures Valid() && Cfg() == cfg && State() == Fresh(cfg)
    {
      pool, minActive, maskThreshold, restoreWindows := cfg.pool, cfg.minActive, cfg.maskThreshold, cfg.restoreWindows;
      anchors := cfg.anchors;
      var empty: seq<bv8> := seq((cfg.pool + 7) / 8, i => 0);
      activeMask, pendingMask, anchorMask := empty, empty, empty;
      epoch, index, pendingValid := 0, 0, false;
      bad, masked, served, level := Zeros(cfg.pool), Zeros(cfg.pool), Zeros(cfg.pool), Zeros(cfg.pool);
      new;
      for channel := 0 to pool
        invariant |activeMask| == |pendingMask| == |anchorMask| == (pool + 7) / 8
        invariant forall c :: 0 <= c < channel ==> Get(activeMask, c) && Get(pendingMask, c)
        invariant forall c :: 0 <= c < pool ==> (Get(anchorMask, c) <==> c < channel && c in anchors)
        invariant epoch == index == 0 && !pendingValid
        invariant bad == masked == served == level == Zeros(pool)
      {
        activeMask, pendingMask := Set(activeMask, channel, true), Set(pendingMask, channel, true);
        if channel in anchors {
          anchorMask := Set(anchorMask, channel, true);
        }
      }
      assert Members(activeMask, pool) == Pool(pool) && Members(pendingMask, pool) == Pool(pool);
      assert Members(anchorMask, pool) == anchors;
    }

    /** A stored mask as the channels it keeps. */
    ghost function Stored(persisted: Option<seq<bv8>>): Option<set<nat>>
      requires persisted.Some? ==> |persisted.value| == (pool + 7) / 8
    {
      if persisted.None? then None else Some(Members(persisted.value, pool))
    }

    /** Takes channels the stored mask leaves out of the pending mask, anchors exempt. */
    method MaskPersisted(persisted: seq<bv8>)
      requires Valid() && |persisted| == (pool + 7) / 8
      modifies this`pendingMask
      ensures Valid()
      ensures Members(pendingMask, pool) == old(Members(pendingMask, pool)) * (Members(persisted, pool) + anchors)
    {
      for channel := 0 to pool
        invariant |pendingMask| == (pool + 7) / 8
        invariant forall c :: 0 <= c < pool ==> (Get(pendingMask, c) <==>
                    old(Get(pendingMask, c)) && (c < channel ==> Get(persisted, c) || c in anchors))
      {
        assert Get(anchorMask, channel) <==> channel in anchors;
        if !Get(persisted, channel) && !Get(anchorMask, channel) {
          pendingMask := Set(pendingMask, channel, false);
        }
      }
    }

    method BootMask(persisted: Option<seq<bv8>>, energy: seq<int>, threshold: int)
      requires Valid() && State() == Fresh(Cfg()) && |energy| == pool
      requires persisted.Some? ==> |persisted.value| == (pool + 7) / 8
      modifies this
      ensures Valid()
      ensures State() == Boot(Cfg(), Stored(persisted), energy, threshold)
    {
      BootPendingMask(persisted, energy, threshold);
      BootWithIs(Cfg(), State());
      AdoptUnlessFull();
    }

    method AdoptUnlessFull()
      requires Valid()
      modifies this`activeMask, this`epoch, this`index
      ensures Valid() && State() == Adopted(Cfg(), old(State()))
    {
      var count := ActiveCount(pendingMask, pool);
      if count != pool {
        AdoptPending();
      }
    }

    method BootPendingMask(persisted: Option<seq<bv8>>, energy: seq<int>, threshold: int)
      requires Valid() && Members(pendingMask, pool) == Pool(pool) && |energy| == pool
      requires persisted.Some? ==> |persisted.value| == (pool + 7) / 8
      modifies this`pendingMask
      ensures Valid()
      ensures Members(pendingMask, pool)
           == Surveyed(energy, Allowed(Cfg(), if persisted.None? then None else Some(Members(persisted.value, pool))),
                       anchors, minActive, threshold)
    {
      ghost var stored := if persisted.None? then None else Some(Members(persisted.value, pool));
      if persisted.Some? {
        MaskPersisted(persisted.value);
      }
      assert Members(pendingMask, pool) == Allowed(Cfg(), stored);
      SurveyPool(energy, threshold);
    }

    method SurveyPool(energy: seq<int>, threshold: int)
      requires Valid() && |energy| == pool
      modifies this`pendingMask
      ensures Valid()
      ensures Members(pendingMask, pool)
              == Surveyed(energy, old(Members(pendingMask, pool)), anchors, minActive, threshold)
    {
      var count: nat;
      pendingMask, count := SurveyMask(energy, pendingMask, anchorMask, minActive, threshold);
    }

    /** Pre-traffic: the pending mask becomes active at once, and the epoch moves on. */
    method AdoptPending()
      requires Valid()
      modifies this`activeMask, this`epoch, this`index
      ensures Valid()
      ensures var h := old(State());
        State() == h.(active := h.pending, epoch := NextEpoch(h.epoch),
                      index := ChannelFor(NextEpoch(h.epoch), h.pending, pool))
    {
      RemainderIs(epoch + 1, EPOCHS);
      activeMask := pendingMask;
      epoch := (epoch + 1) % EPOCHS;
      index := ChannelForEpochMasked(epoch, activeMask, pool);
    }

    method ScoreCurrentChannel(w: Window)
      requires Valid()
      modifies this
      ensures Valid() && State() == Score(old(State()), pool, w)
    {
      if w.polled {
        bad := bad[index := ScoreUpdate(bad[index], w.penalty, CHANNEL_BAD_DECAY)];
      }
    }

    /** One channel of the restore loop. */
    method RevisitChannel(channel: nat, polled: bool) returns (due: bool)
      requires Valid() && channel < pool
      modifies this
      ensures Valid() && due == Due(Cfg(), old(State()), channel)
      ensures State() == RevisitOne(Cfg(), old(State()), polled, channel).(pendingValid := old(pendingValid))
    {
      due := false;
      ghost var was := Members(pendingMask, pool);
      if Get(pendingMask, channel) {
        if channel == index && polled && served[channel] < restoreWindows {
          served := served[channel := served[channel] + 1];
          if served[channel] >= restoreWindows {
            level := level[channel := 0];
          }
        }
        return;
      }
      var retest := RetestThreshold(restoreWindows, level[channel]);
      masked := masked[channel := (masked[channel] + 1) % U16_TURN];
      if masked[channel] >= retest {
        pendingMask := Set(pendingMask, channel, true);
        assert Members(pendingMask, pool) == was + {channel};
        bad := bad[channel := 0];
        masked := masked[channel := 0];
        due := true;
      }
    }

    method BenchWorst() returns (benched: bool)
      requires Valid()
      modifies this
      ensures Valid()
      ensures State() == Bench(Cfg(), old(State())).(pendingValid := old(pendingValid))
      ensures benched == (|old(State()).pending| > minActive && WorstOf(Cfg(), old(State())) < pool)
    {
      benched := false;
      var count := ActiveCount(pendingMask, pool);
      if count <= minActive {
        return;
      }
      var worst := WorstChannel(bad, pendingMask, anchorMask, maskThreshold);
      if worst >= pool {
        return;
      }
      MaskChannel(worst);
      benched := true;
    }

    method MaskChannel(worst: nat)
      requires Valid() && worst < pool
      modifies this`pendingMask, this`masked, this`level, this`served
      ensures Valid()
      ensures State() == Masked(Cfg(), old(State()), worst)
    {
      pendingMask := Set(pendingMask, worst, false);
      assert Members(pendingMask, pool) == old(Members(pendingMask, pool)) - {worst};
      masked := masked[worst := 0];
      if served[worst] < restoreWindows && level[worst] < RETEST_LEVEL_MAX {
        level := level[worst := level[worst] + 1];
      }
      served := served[worst := 0];
    }

    method RecomputeMask(polled: bool)
      requires Valid()
      modifies this
      ensures Valid() && State() == Recompute(Cfg(), old(State()), polled)
    {
      var changed := RevisitChannels(polled);
      BenchIgnoresValid(Cfg(), State(), Revisit(Cfg(), old(State()), polled).pendingValid);
      var benched := BenchWorst();
      if changed || benched {
        pendingValid := true;
      }
    }

    method RevisitChannels(polled: bool) returns (changed: bool)
      requires Valid()
      modifies this
      ensures Valid() && var goal := Revisit(Cfg(), old(State()), polled);
        && State() == goal.(pendingValid := old(pendingValid))
        && goal.pendingValid == (old(pendingValid) || changed)
    {
      ghost var start, h := State(), State();
      changed := false;
      for channel := 0 to pool
        invariant Valid() && h == RevisitUpTo(Cfg(), start, polled, channel)
        invariant State() == h.(pendingValid := start.pendingValid)
        invariant h.pendingValid == (start.pendingValid || changed)
      {
        OneIgnoresValid(Cfg(), h, start.pendingValid, polled, channel);
        h := RevisitOne(Cfg(), h, polled, channel);
        var due := RevisitChannel(channel, polled);
        changed := changed || due;
      }
      RevisitAll(Cfg(), start, polled);
    }

    method HopToNextEpoch()
      requires Valid()
      modifies this
      ensures Valid() && State() == HopToNext(Cfg(), old(State()))
    {
      if pendingValid {
        activeMask := pendingMask;
        pendingValid := false;
      }
      RemainderIs(epoch + 1, EPOCHS);
      epoch := (epoch + 1) % EPOCHS;
      index := ChannelForEpochMasked(epoch, activeMask, pool);
    }

    method DecisionTick(w: Window)
      requires Valid()
      modifies this
      ensures Valid() && State() == Tick(Cfg(), old(State()), w)
    {
      ScoreCurrentChannel(w);
      RecomputeMask(w.polled);
      if w.vote {
        HopToNextEpoch();
      }
      if w.escape {
        HopToNextEpoch();
      }
    }
  }

  /** The restore loop's effect on one channel. */
  function RevisitOne(cfg: Config, h: Hop, polled: bool, c: nat): (r: Hop)
    requires h.Shaped(cfg.pool) && c < cfg.pool
    ensures r.Shaped(cfg.pool)
  {
    if c in h.pending then
      if !Serves(cfg, h, polled, c) then h
      else h.(served := h.served[c := h.served[c] + 1],
              level := if h.served[c] + 1 >= cfg.restoreWindows then h.level[c := 0] else h.level)
    else if Due(cfg, h, c) then
      h.(pending := h.pending + {c}, pendingValid := true, bad := h.bad[c := 0], masked := h.masked[c := 0])
    else h.(masked := h.masked[c := (h.masked[c] + 1) % U16_TURN])
  }

  function RevisitUpTo(cfg: Config, h: Hop, polled: bool, n: nat): (r: Hop)
    requires h.Shaped(cfg.pool) && n <= cfg.pool
    ensures r.Shaped(cfg.pool)
  {
    if n == 0 then h else RevisitOne(cfg, RevisitUpTo(cfg, h, polled, n - 1), polled, n - 1)
  }

  /** All the loop ever reads or writes of one channel. */
  function At(h: Hop, pool: nat, c: nat): (bool, nat, nat, nat, nat)
    requires h.Shaped(pool) && c < pool
  {
    (c in h.pending, h.bad[c], h.masked[c], h.served[c], h.level[c])
  }

  lemma {:induction false} OneIsLocal(cfg: Config, h: Hop, h': Hop, polled: bool, n: nat, c: nat)
    requires h.Shaped(cfg.pool) && h'.Shaped(cfg.pool) && n < cfg.pool && c < cfg.pool && h.index == h'.index
    requires At(h, cfg.pool, c) == At(h', cfg.pool, c)
    ensures n != c ==> At(RevisitOne(cfg, h, polled, n), cfg.pool, c) == At(h, cfg.pool, c)
    ensures n == c ==> At(RevisitOne(cfg, h, polled, n), cfg.pool, c) == At(RevisitOne(cfg, h', polled, n), cfg.pool, c)
    ensures n == c ==> Due(cfg, h, c) == Due(cfg, h', c)
  {
  }

  lemma {:induction false} UpToAt(cfg: Config, h: Hop, polled: bool, n: nat, c: nat)
    requires h.Shaped(cfg.pool) && n <= cfg.pool && c < cfg.pool
    ensures var r := RevisitUpTo(cfg, h, polled, n);
      && r.index == h.index && r.epoch == h.epoch && r.active == h.active
      && At(r, cfg.pool, c) == if c < n then At(RevisitOne(cfg, h, polled, c), cfg.pool, c) else At(h, cfg.pool, c)
  {
    if n > 0 {
      UpToAt(cfg, h, polled, n - 1, c);
      OneMore(cfg, h, RevisitUpTo(cfg, h, polled, n - 1), polled, n - 1, c);
    }
  }

  lemma {:induction false} OneMore(cfg: Config, h: Hop, before: Hop, polled: bool, n: nat, c: nat)
    requires h.Shaped(cfg.pool) && before.Shaped(cfg.pool) && n < cfg.pool && c < cfg.pool && before.index == h.index
    requires At(before, cfg.pool, c)
             == if c < n then At(RevisitOne(cfg, h, polled, c), cfg.pool, c) else At(h, cfg.pool, c)
    ensures var r := RevisitOne(cfg, before, polled, n);
      && r.index == before.index && r.epoch == before.epoch && r.active == before.active
      && At(r, cfg.pool, c) == if c < n + 1 then At(RevisitOne(cfg, h, polled, c), cfg.pool, c) else At(h, cfg.pool, c)
  {
    OneIsLocal(cfg, before, if c < n then before else h, polled, n, c);
  }

  lemma {:induction false} UpToValid(cfg: Config, h: Hop, polled: bool, n: nat)
    requires h.Shaped(cfg.pool) && n <= cfg.pool
    ensures RevisitUpTo(cfg, h, polled, n).pendingValid
       <==> h.pendingValid || exists c :: 0 <= c < n && Due(cfg, h, c)
    ensures forall c: nat :: c in RevisitUpTo(cfg, h, polled, n).pending ==> c in h.pending || c < n
  {
    if n > 0 {
      UpToValid(cfg, h, polled, n - 1);
      UpToAt(cfg, h, polled, n - 1, n - 1);
      OneMoreDue(cfg, h, RevisitUpTo(cfg, h, polled, n - 1), polled, n - 1);
    }
  }

  lemma {:induction false} OneMoreDue(cfg: Config, h: Hop, before: Hop, polled: bool, n: nat)
    requires h.Shaped(cfg.pool) && before.Shaped(cfg.pool) && n < cfg.pool && before.index == h.index
    requires At(before, cfg.pool, n) == At(h, cfg.pool, n)
    ensures var r := RevisitOne(cfg, before, polled, n);
      && r.pendingValid == (before.pendingValid || Due(cfg, h, n))
      && forall c: nat :: c in r.pending ==> c in before.pending || c == n
  {
  }

  /** `r` has of channel `c` what one pass leaves of it. */
  ghost predicate Revisited(cfg: Config, h: Hop, polled: bool, c: nat, r: Hop)
    requires h.Shaped(cfg.pool) && r.Shaped(cfg.pool) && c < cfg.pool
  {
    var served := Serves(cfg, h, polled, c);
    && (c in r.pending <==> c in h.pending || Due(cfg, h, c))
    && r.bad[c] == (if Due(cfg, h, c) then 0 else h.bad[c])
    && r.masked[c] == (if c in h.pending then h.masked[c]
                       else if Due(cfg, h, c) then 0 else (h.masked[c] + 1) % U16_TURN)
    && r.served[c] == (if served then h.served[c] + 1 else h.served[c])
    && r.level[c] == if served && h.served[c] + 1 >= cfg.restoreWindows then 0 else h.level[c]
  }

  lemma {:induction false} AllRevisited(cfg: Config, h: Hop, polled: bool, c: nat)
    requires h.Shaped(cfg.pool) && c < cfg.pool
    ensures Revisited(cfg, h, polled, c, Revisit(cfg, h, polled))
  {
  }

  lemma {:induction false} OneRevisited(cfg: Config, h: Hop, polled: bool, c: nat)
    requires h.Shaped(cfg.pool) && c < cfg.pool
    ensures Revisited(cfg, h, polled, c, RevisitOne(cfg, h, polled, c))
  {
  }

  lemma {:induction false} RevisitAtOne(cfg: Config, h: Hop, polled: bool, c: nat)
    requires h.Shaped(cfg.pool) && c < cfg.pool
    ensures At(Revisit(cfg, h, polled), cfg.pool, c) == At(RevisitOne(cfg, h, polled, c), cfg.pool, c)
  {
    AllRevisited(cfg, h, polled, c);
    OneRevisited(cfg, h, polled, c);
    SameAt(cfg, h, polled, c, Revisit(cfg, h, polled), RevisitOne(cfg, h, polled, c));
  }

  lemma {:induction false} SameAt(cfg: Config, h: Hop, polled: bool, c: nat, r: Hop, s: Hop)
    requires h.Shaped(cfg.pool) && r.Shaped(cfg.pool) && s.Shaped(cfg.pool) && c < cfg.pool
    requires Revisited(cfg, h, polled, c, r) && Revisited(cfg, h, polled, c, s)
    ensures At(r, cfg.pool, c) == At(s, cfg.pool, c)
  {
  }

  /** Channel by channel is the same as all at once: no channel reads another's counters. */
  lemma {:induction false} RevisitAll(cfg: Config, h: Hop, polled: bool)
    requires h.Shaped(cfg.pool)
    ensures RevisitUpTo(cfg, h, polled, cfg.pool) == Revisit(cfg, h, polled)
  {
    var r, goal := RevisitUpTo(cfg, h, polled, cfg.pool), Revisit(cfg, h, polled);
    UpToAt(cfg, h, polled, cfg.pool, h.index);
    UpToValid(cfg, h, polled, cfg.pool);
    forall c | 0 <= c < cfg.pool
      ensures At(r, cfg.pool, c) == At(goal, cfg.pool, c)
    {
      UpToAt(cfg, h, polled, cfg.pool, c);
      RevisitAtOne(cfg, h, polled, c);
    }
    SameEverywhere(r, goal, cfg.pool);
    forall c: nat | c >= cfg.pool
      ensures c in r.pending <==> c in goal.pending
    {
      OutsideKept(cfg, h, polled, cfg.pool, c);
    }
    assert r.pending == goal.pending;
  }

  lemma {:induction false} SameEverywhere(r: Hop, goal: Hop, pool: nat)
    requires r.Shaped(pool) && goal.Shaped(pool)
    requires forall c :: 0 <= c < pool ==> At(r, pool, c) == At(goal, pool, c)
    ensures r.bad == goal.bad && r.masked == goal.masked && r.served == goal.served && r.level == goal.level
    ensures forall c: nat :: c < pool ==> (c in r.pending <==> c in goal.pending)
  {
    forall c | 0 <= c < pool
      ensures r.bad[c] == goal.bad[c] && r.masked[c] == goal.masked[c]
      ensures r.served[c] == goal.served[c] && r.level[c] == goal.level[c]
      ensures c in r.pending <==> c in goal.pending
    {
      assert At(r, pool, c) == At(goal, pool, c);
    }
  }

  lemma {:induction false} OutsideKept(cfg: Config, h: Hop, polled: bool, n: nat, c: nat)
    requires h.Shaped(cfg.pool) && n <= cfg.pool <= c
    ensures c in RevisitUpTo(cfg, h, polled, n).pending <==> c in h.pending
    ensures c in Revisit(cfg, h, polled).pending <==> c in h.pending
  {
    if n > 0 {
      OutsideKept(cfg, h, polled, n - 1, c);
    }
  }

  lemma {:induction false} OneIgnoresValid(cfg: Config, h: Hop, valid: bool, polled: bool, c: nat)
    requires h.Shaped(cfg.pool) && c < cfg.pool
    ensures RevisitOne(cfg, h.(pendingValid := valid), polled, c)
         == RevisitOne(cfg, h, polled, c).(pendingValid := valid || Due(cfg, h, c))
    ensures RevisitOne(cfg, h, polled, c).pendingValid == (h.pendingValid || Due(cfg, h, c))
    ensures Due(cfg, h.(pendingValid := valid), c) == Due(cfg, h, c)
  {
  }

  lemma {:induction false} BenchIgnoresValid(cfg: Config, h: Hop, valid: bool)
    requires h.Shaped(cfg.pool)
    ensures Bench(cfg, h.(pendingValid := valid))
         == Bench(cfg, h).(pendingValid := valid || (|h.pending| > cfg.minActive && WorstOf(cfg, h) < cfg.pool))
  {
  }
}
