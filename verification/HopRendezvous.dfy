/** Both ends of the hop together: adopting an epoch lands on the central's channel, and a degraded
    channel is left for the next active one with one step back (src/hop_peripheral.c:150-219). */
module HopRendezvous {
  import opened Common
  import opened HopPolicy
  import opened HopPeripheral
  import Central = HopCentral

  // ---- adopting ----

  /** A tick that hears of a new epoch adopts it, with the mask staged for it if there is one. */
  lemma {:induction false} AdoptIs(cfg: Config, s: State, w: Window)
    requires cfg.Valid() && s.index < cfg.pool && w.beacon != s.epoch
    ensures var r := Tick(cfg, s, w);
      && r.epoch == w.beacon && r.mask == (if w.staged.Some? then w.staged.value else s.mask)
      && r.index == ChannelFor(w.beacon, r.mask, cfg.pool)
      && r.sweep == 0 && r.bad == 0 && !r.undoArmed
  {
  }

  /** The mask changes with the epoch and never without it: a mask staged for an epoch waits for it. */
  lemma {:induction false} MaskWaits(cfg: Config, s: State, windows: seq<Window>)
    requires cfg.Valid() && Reachable(cfg, s) && forall i :: 0 <= i < |windows| ==> windows[i].beacon == s.epoch
    ensures Run(cfg, s, windows).mask == s.mask && Run(cfg, s, windows).epoch == s.epoch
    decreases |windows|
  {
    if windows != [] {
      var next := Tick(cfg, s, windows[0]);
      assert forall i :: 0 <= i < |windows[1..]| ==> windows[1..][i] == windows[i + 1];
      MaskWaits(cfg, next, windows[1..]);
    }
  }

  /** A peripheral in any state that hears the central's epoch, and has its mask staged or in use already,
      is on the central's channel at once. */
  lemma {:induction false} AdoptMeets(central: Central.Config, h: Central.Hop, cfg: Config, s: State, w: Window)
    requires Central.Inv(central, h) && cfg.Valid() && cfg.pool == central.pool && s.index < cfg.pool
    requires w.beacon == h.epoch != s.epoch && (if w.staged.Some? then w.staged.value else s.mask) == h.active
    ensures Tick(cfg, s, w).index == h.index && Tick(cfg, s, w).mask == h.active && Tick(cfg, s, w).epoch == h.epoch
  {
  }

  /** With another mask it still is, if each end's channel is active in the other's. */
  lemma {:induction false} AdoptAgrees(central: Central.Config, h: Central.Hop, cfg: Config, s: State, w: Window)
    requires Central.Inv(central, h) && cfg.Valid() && cfg.pool == central.pool && s.index < cfg.pool
    requires w.beacon == h.epoch != s.epoch
    requires Tick(cfg, s, w).index in h.active && h.index in Tick(cfg, s, w).mask
    ensures Tick(cfg, s, w).index == h.index
  {
    EndsAgree(h.epoch, h.active, Tick(cfg, s, w).mask, cfg.pool);
  }

  // ---- leaving a degraded channel ----

  /** Acked windows of this epoch, all bad. */
  predicate Bad(s: State, windows: seq<Window>) {
    forall i :: 0 <= i < |windows| ==> windows[i].beacon == s.epoch && windows[i].acked && windows[i].penalty > 0
  }

  /** The streak after them, one byte wide. */
  function Streak(bad: nat, windows: seq<Window>): nat {
    if windows == [] then bad
    else
      var sum := Streak(bad, windows[..|windows| - 1]) + windows[|windows| - 1].penalty;
      if sum > 255 then 255 else sum
  }

  lemma {:induction false} RunSnoc(cfg: Config, s: State, windows: seq<Window>, w: Window)
    requires cfg.Valid() && Reachable(cfg, s)
    ensures Run(cfg, s, windows + [w]) == Tick(cfg, Run(cfg, s, windows), w)
    decreases |windows|
  {
    if windows == [] {
      assert Run(cfg, Tick(cfg, s, w), [w][1..]) == Tick(cfg, s, w);
      assert windows + [w] == [w];
    } else {
      assert (windows + [w])[0] == windows[0] && (windows + [w])[1..] == windows[1..] + [w];
      RunSnoc(cfg, Tick(cfg, s, windows[0]), windows[1..], w);
    }
  }

  /** `r` is still on the channel, the mask and the epoch of `s`, with this streak. */
  ghost predicate Endured(s: State, r: State, streak: nat) {
    r.index == s.index && r.mask == s.mask && r.epoch == s.epoch && r.bad == streak <= 255
  }

  lemma {:induction false} EnduresMore(cfg: Config, s: State, r: State, w: Window, streak: nat)
    requires cfg.Valid() && r.index < cfg.pool && Endured(s, r, streak)
    requires w.beacon == s.epoch && w.acked && w.penalty > 0
    requires (if streak + w.penalty > 255 then 255 else streak + w.penalty) < cfg.threshold
    ensures var t := Tick(cfg, r, w);
      && Endured(s, t, if streak + w.penalty > 255 then 255 else streak + w.penalty) && t.sweep == 0 && !t.undoArmed
  {
  }

  /** While the streak stays below the threshold the channel does. */
  lemma {:induction false} Endures(cfg: Config, s: State, windows: seq<Window>)
    requires cfg.Valid() && Reachable(cfg, s) && Bad(s, windows) && s.bad < cfg.threshold && s.bad <= 255
    requires forall k :: 0 < k <= |windows| ==> Streak(s.bad, windows[..k]) < cfg.threshold
    ensures Endured(s, Run(cfg, s, windows), Streak(s.bad, windows))
    ensures windows != [] ==> Run(cfg, s, windows).sweep == 0 && !Run(cfg, s, windows).undoArmed
  {
    if windows != [] {
      var init, last := windows[..|windows| - 1], windows[|windows| - 1];
      forall k | 0 < k <= |init| ensures Streak(s.bad, init[..k]) < cfg.threshold { assert init[..k] == windows[..k]; }
      Endures(cfg, s, init);
      assert windows == init + [last] && windows[..|windows|] == windows;
      RunSnoc(cfg, s, init, last);
      EnduresMore(cfg, s, Run(cfg, s, init), last, Streak(s.bad, init));
    }
  }

  /** A run of bad windows leaves the channel in the very window in which their streak reaches the threshold,
      for the next active channel, and remembers where from. */
  lemma {:induction false} LeavesWhen(cfg: Config, s: State, windows: seq<Window>) returns (t: nat)
    requires cfg.Valid() && Reachable(cfg, s) && Bad(s, windows) && s.bad < cfg.threshold && s.bad <= 255
    requires windows != [] && Streak(s.bad, windows) >= cfg.threshold
    requires forall k :: 0 < k < |windows| ==> Streak(s.bad, windows[..k]) < cfg.threshold
    ensures Run(cfg, s, windows[..|windows| - 1]).index == s.index
    ensures var r := Run(cfg, s, windows);
      && 0 < t <= cfg.pool && r.index == Around(s.index, t, cfg.pool)
      && (forall u :: 0 < u < t ==> Around(s.index, u, cfg.pool) !in s.mask)
      && (r.index in s.mask || forall c :: 0 <= c < cfg.pool ==> c !in s.mask)
      && r.undoArmed && r.undoIndex == s.index && r.bad == 0 && r.epoch == s.epoch
  {
    var init, last := windows[..|windows| - 1], windows[|windows| - 1];
    forall k | 0 < k <= |init| ensures Streak(s.bad, init[..k]) < cfg.threshold { assert init[..k] == windows[..k]; }
    Endures(cfg, s, init);
    assert windows == init + [last];
    RunSnoc(cfg, s, init, last);
    t := NextActiveIs(s.index, s.mask, cfg.pool);
  }

  /** If the link is lost in the window after that, it steps back; if that window is acked and good, the step
      back is given up and the channel kept. */
  lemma {:induction false} StepsBack(cfg: Config, s: State, w: Window)
    requires cfg.Valid() && Reachable(cfg, s) && s.undoArmed && w.beacon == s.epoch
    ensures var r := Tick(cfg, s, w);
      && (!w.acked ==> r.index == s.undoIndex && !r.undoArmed && r.bad == 0)
      && (w.acked && w.penalty == 0 ==> r.index == s.index && !r.undoArmed && r.bad == 0)
  {
  }

  /** One good window ends a streak. */
  lemma {:induction false} GoodWindowClears(cfg: Config, s: State, w: Window)
    requires cfg.Valid() && Reachable(cfg, s) && w.beacon == s.epoch && w.acked && w.penalty == 0
    ensures Tick(cfg, s, w).bad == 0 && Tick(cfg, s, w).index == s.index && !Tick(cfg, s, w).undoArmed
  {
  }

  // ---- the dwell ----

  /** A dwell is the fewest windows that last an idle keepalive period, and two more. */
  lemma {:induction false} DwellCovers(idleMs: nat, windowMs: nat)
    requires windowMs > 0
    ensures var n := Dwell(idleMs, windowMs) - 2;
      n * windowMs >= idleMs && (n > 0 ==> (n - 1) * windowMs < idleMs)
  {
    var n := Dwell(idleMs, windowMs) - 2;
    DivMod(idleMs + windowMs - 1, windowMs);
    assert (n - 1) * windowMs == n * windowMs - windowMs;
  }
}
