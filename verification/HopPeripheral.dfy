/** The peripheral's hop engine: adopt the central's epoch and mask, leave a degraded channel with
    one step back, sweep the whole pool while lost (src/hop_peripheral.c:134-219,
    src/hop_peripheral.c:244-271). */
module HopPeripheral {
  import opened Common
  import opened Bitmap
  import opened HopPolicy

  /** Windows a lost peripheral stays on each channel: one central decision tick, plus two. */
  function Dwell(idleMs: nat, windowMs: nat): (d: nat)
    requires windowMs > 0
    ensures d >= 2
  {
    (idleMs + windowMs - 1) / windowMs + 2
  }

  /** The next value of the degradation streak, and whether to leave the channel. */
  function ShouldHop(bad: nat, penalty: nat, threshold: nat): (nat, bool) {
    if penalty == 0 then (0, false)
    else
      var streak := SaturatingAdd(bad, penalty);
      if streak >= threshold then (0, true) else (streak, false)
  }

  datatype State = State(index: nat, sweep: nat, undoIndex: nat, undoArmed: bool, epoch: nat, mask: set<nat>, bad: nat)

  datatype Config = Config(pool: nat, dwell: nat, threshold: nat) {
    predicate Valid() { pool > 1 && dwell >= 2 }
  }

  /** What a keepalive tick sees: the beacon's epoch, a staged mask, whether the link was acked, and
      the window's attempts penalty. */
  datatype Window = Window(beacon: nat, staged: Option<set<nat>>, acked: bool, penalty: nat)

  function Adopt(cfg: Config, s: State, w: Window): State
    requires cfg.Valid()
  {
    var mask := if w.staged.Some? then w.staged.value else s.mask;
    State(ChannelFor(w.beacon, mask, cfg.pool), 0, s.undoIndex, false, w.beacon, mask, 0)
  }

  function Connected(cfg: Config, s: State, penalty: nat): State
    requires cfg.Valid() && s.index < cfg.pool
  {
    var (bad, leave) := ShouldHop(s.bad, penalty, cfg.threshold);
    if leave then s.(sweep := 0, bad := bad, undoIndex := s.index, undoArmed := true,
                     index := IndexNextActive(s.index, s.mask, cfg.pool))
    else s.(sweep := 0, bad := bad, undoArmed := false)
  }

  function Lost(cfg: Config, s: State): State
    requires cfg.Valid() && s.index < cfg.pool
  {
    var sweep := IndexNext(if s.sweep < cfg.dwell then s.sweep else 0, cfg.dwell);
    s.(bad := 0, sweep := sweep, undoArmed := false,
       index := if s.undoArmed then s.undoIndex else if sweep == 0 then IndexNext(s.index, cfg.pool) else s.index)
  }

  function Tick(cfg: Config, s: State, w: Window): State
    requires cfg.Valid() && s.index < cfg.pool
  {
    if w.beacon != s.epoch then Adopt(cfg, s, w)
    else if w.acked then Connected(cfg, s, w.penalty)
    else Lost(cfg, s)
  }

  /** Every state a run can be in. */
  predicate Reachable(cfg: Config, s: State) {
    && s.index < cfg.pool && s.sweep < cfg.dwell
    && (s.undoArmed ==> s.undoIndex < cfg.pool && s.sweep == 0)
  }

  function Run(cfg: Config, s: State, windows: seq<Window>): (r: State)
    requires cfg.Valid() && Reachable(cfg, s)
    ensures Reachable(cfg, r)
    decreases |windows|
  {
    if windows == [] then s else Run(cfg, Tick(cfg, s, windows[0]), windows[1..])
  }

  // ---- the sweep ----

  /** The state after `n` lost windows. */
  function LostFor(cfg: Config, s: State, n: nat): (r: State)
    requires cfg.Valid() && Reachable(cfg, s)
    ensures Reachable(cfg, r)
  {
    if n == 0 then s else Lost(cfg, LostFor(cfg, s, n - 1))
  }

  lemma {:induction false} LostThenLost(cfg: Config, s: State, m: nat, n: nat)
    requires cfg.Valid() && Reachable(cfg, s)
    ensures LostFor(cfg, LostFor(cfg, s, m), n) == LostFor(cfg, s, m + n)
    decreases n
  {
    if n > 0 {
      LostThenLost(cfg, s, m, n - 1);
    }
  }

  /** Without a step back pending, the channel holds until the dwell is over. */
  lemma {:induction false} Holds(cfg: Config, s: State, n: nat)
    requires cfg.Valid() && Reachable(cfg, s) && !s.undoArmed && s.sweep + n <= cfg.dwell
    ensures var r := LostFor(cfg, s, n);
      && !r.undoArmed
      && (s.sweep + n < cfg.dwell ==> r.index == s.index && r.sweep == s.sweep + n)
      && (s.sweep + n == cfg.dwell && n > 0 ==> r.index == IndexNext(s.index, cfg.pool) && r.sweep == 0)
    decreases n
  {
    if n > 0 {
      Holds(cfg, s, n - 1);
    }
  }

  ghost predicate DwellsOn(cfg: Config, s: State, channel: nat, t: nat)
    requires cfg.Valid() && Reachable(cfg, s)
  {
    forall u :: t <= u < t + cfg.dwell ==> LostFor(cfg, s, u).index == channel
  }

  /** From the start of a dwell, the channel `steps` further on is dwelt on `steps` dwells later. */
  lemma {:induction false} LaterDwell(cfg: Config, s: State, steps: nat)
    requires cfg.Valid() && Reachable(cfg, s) && !s.undoArmed && s.sweep == 0
    ensures DwellsOn(cfg, s, Advance(s.index, steps, cfg.pool), Windows(cfg, steps))
    decreases steps
  {
    if steps == 0 {
      forall u | 0 <= u < cfg.dwell
        ensures LostFor(cfg, s, u).index == s.index
      {
        Holds(cfg, s, u);
      }
    } else {
      Holds(cfg, s, cfg.dwell);
      var next := LostFor(cfg, s, cfg.dwell);
      LaterDwell(cfg, next, steps - 1);
      forall u | Windows(cfg, steps) <= u < Windows(cfg, steps) + cfg.dwell
        ensures LostFor(cfg, s, u).index == Advance(s.index, steps, cfg.pool)
      {
        LostThenLost(cfg, s, cfg.dwell, u - cfg.dwell);
        assert LostFor(cfg, next, u - cfg.dwell).index == Advance(next.index, steps - 1, cfg.pool);
      }
    }
  }

  /** `steps` whole dwells. */
  function Windows(cfg: Config, steps: nat): (n: nat) {
    if steps == 0 then 0 else cfg.dwell + Windows(cfg, steps - 1)
  }

  lemma {:induction false} WindowsIs(cfg: Config, steps: nat)
    ensures Windows(cfg, steps) == steps * cfg.dwell
  {
    if steps > 0 {
      WindowsIs(cfg, steps - 1);
      assert steps * cfg.dwell == (steps - 1) * cfg.dwell + cfg.dwell;
    }
  }

  lemma {:induction false} WindowsMonotone(cfg: Config, a: nat, b: nat)
    requires a <= b
    ensures Windows(cfg, a) <= Windows(cfg, b)
  {
    if a < b {
      WindowsMonotone(cfg, a, b - 1);
    }
  }

  /** From a state with no step back pending, every channel gets its dwell. */
  lemma {:induction false} SettledSweep(cfg: Config, s: State, channel: nat) returns (t: nat)
    requires cfg.Valid() && Reachable(cfg, s) && !s.undoArmed && channel < cfg.pool
    ensures 0 < t && t + cfg.dwell + s.sweep <= Windows(cfg, cfg.pool + 1)
    ensures DwellsOn(cfg, s, channel, t)
  {
    var first := cfg.dwell - s.sweep;
    Holds(cfg, s, first);
    var start := LostFor(cfg, s, first);
    var steps := ReachedWithin(start.index, channel, cfg.pool);
    LaterDwell(cfg, start, steps);
    WindowsMonotone(cfg, steps, cfg.pool - 1);
    t := first + Windows(cfg, steps);
    forall u | t <= u < t + cfg.dwell
      ensures LostFor(cfg, s, u).index == channel
    {
      LostThenLost(cfg, s, first, u - first);
      assert LostFor(cfg, start, u - first).index == Advance(start.index, steps, cfg.pool);
    }
  }

  /** Sweep rendezvous bound.  From every state a run can reach, while windows stay lost and no new
      epoch arrives, every channel of the pool, masked or not, gets one unbroken dwell within pool
      size plus one dwells, the one-window step back included. */
  lemma {:induction false} SweepBound(cfg: Config, s: State, channel: nat) returns (t: nat)
    requires cfg.Valid() && Reachable(cfg, s) && channel < cfg.pool
    ensures 0 < t && t + cfg.dwell <= (cfg.pool + 1) * cfg.dwell
    ensures DwellsOn(cfg, s, channel, t)
  {
    WindowsIs(cfg, cfg.pool + 1);
    if s.undoArmed {
      var back := Lost(cfg, s);
      t := SettledSweep(cfg, back, channel);
      assert LostFor(cfg, s, 1) == Lost(cfg, LostFor(cfg, s, 0)) == back;
      forall u | t + 1 <= u < t + 1 + cfg.dwell
        ensures LostFor(cfg, s, u).index == channel
      {
        LostThenLost(cfg, s, 1, u - 1);
        assert LostFor(cfg, back, u - 1).index == channel;
      }
      t := t + 1;
    } else {
      t := SettledSweep(cfg, s, channel);
    }
  }

  /** Windows without an ack and without a new epoch are lost ones. */
  predicate Silent(s: State, windows: seq<Window>) {
    forall i :: 0 <= i < |windows| ==> windows[i].beacon == s.epoch && !windows[i].acked
  }

  lemma {:induction false} SilentRun(cfg: Config, s: State, windows: seq<Window>)
    requires cfg.Valid() && Reachable(cfg, s) && Silent(s, windows)
    ensures Run(cfg, s, windows) == LostFor(cfg, s, |windows|)
    decreases |windows|
  {
    if windows != [] {
      var next := Tick(cfg, s, windows[0]);
      assert LostFor(cfg, s, 1) == Lost(cfg, LostFor(cfg, s, 0)) == next;
      assert forall i :: 0 <= i < |windows[1..]| ==> windows[1..][i] == windows[i + 1];
      SilentRun(cfg, next, windows[1..]);
      LostThenLost(cfg, s, 1, |windows| - 1);
    }
  }

  /** The same for the keepalive's own runs: in any silent run that long, some unbroken dwell of windows
      is on the channel. */
  lemma {:induction false} SweepOfRun(cfg: Config, s: State, windows: seq<Window>, channel: nat) returns (t: nat)
    requires cfg.Valid() && Reachable(cfg, s) && channel < cfg.pool && Silent(s, windows)
    requires |windows| >= (cfg.pool + 1) * cfg.dwell
    ensures 0 < t && t + cfg.dwell <= (cfg.pool + 1) * cfg.dwell
    ensures forall u :: t <= u < t + cfg.dwell ==> Run(cfg, s, windows[..u]).index == channel
  {
    t := SweepBound(cfg, s, channel);
    forall u | t <= u < t + cfg.dwell
      ensures Run(cfg, s, windows[..u]).index == channel
    {
      SilentRun(cfg, s, windows[..u]);
      assert LostFor(cfg, s, u).index == channel;
    }
  }

  // ---- the code ----

  /** A mask with every channel of the pool set. */
  function AllActive(pool: nat): (mask: seq<bv8>)
    ensures pool <= 8 * |mask| && Members(mask, pool) == Pool(pool)
  {
    var mask := Repeat((pool + 7) / 8, 0xFF as bv8);
    AllOnes(mask, pool);
    mask
  }

  lemma {:induction false} AllOnes(mask: seq<bv8>, pool: nat)
    requires pool <= 8 * |mask| && forall i :: 0 <= i < |mask| ==> mask[i] == 0xFF
    ensures Members(mask, pool) == Pool(pool)
  {
    assert forall k :: 0 <= k < 8 ==> (0xFF as bv8) & Bit(k) != 0;
  }

  class Engine {
    const pool: nat
    const dwell: nat
    const threshold: nat
    var index: nat
    var sweepWindows: nat
    var undoIndex: nat
    var undoArmed: bool
    var epoch: nat
    var mask: seq<bv8>
    var badWindows: nat

    function Cfg(): Config { Config(pool, dwell, threshold) }

    ghost predicate Valid()
      reads this
    {
      && Cfg().Valid() && pool <= 8 * |mask| && Reachable(Cfg(), Current())
    }

    ghost function Current(): State
      reads this
    {
      var active := if pool <= 8 * |mask| then Members(mask, pool) else {};
      State(index, sweepWindows, undoIndex, undoArmed, epoch, active, badWindows)
    }

    /** A staged mask as the channels it keeps. */
    ghost function Staged(staged: Option<seq<bv8>>): Option<set<nat>>
      requires staged.Some? ==> pool <= 8 * |staged.value|
    {
      if staged.None? then None else Some(Members(staged.value, pool))
    }

    /** Index 0 of a whole pool, with the build's dwell. */
    constructor (pool: nat, idleMs: nat, windowMs: nat, threshold: nat)
      requires 1 < pool && windowMs > 0
      ensures Valid() && Cfg() == Config(pool, Dwell(idleMs, windowMs), threshold)
      ensures Current() == State(0, 0, 0, false, 0, Pool(pool), 0)
    {
      this.pool, this.dwell, this.threshold := pool, (idleMs + windowMs - 1) / windowMs + 2, threshold;
      index, sweepWindows, undoIndex, undoArmed, epoch, badWindows := 0, 0, 0, false, 0, 0;
      mask := AllActive(pool);
    }

    method AdoptEpoch(beacon: nat, staged: Option<seq<bv8>>)
      requires Valid() && (staged.Some? ==> |staged.value| == |mask|)
      modifies this
      ensures Valid()
      ensures Current() == Adopt(Cfg(), old(Current()), Window(beacon, Staged(staged), false, 0))
    {
      epoch := beacon;
      if staged.Some? {
        mask := staged.value;
      }
      index := ChannelForEpochMasked(epoch, mask, pool);
      badWindows, sweepWindows, undoArmed := 0, 0, false;
    }

    method ConnectedWindow(penalty: nat)
      requires Valid()
      modifies this
      ensures Valid() && Current() == Connected(Cfg(), old(Current()), penalty)
    {
      sweepWindows, undoArmed := 0, false;
      var r := ShouldHop(badWindows, penalty, threshold);
      badWindows := r.0;
      if r.1 {
        undoIndex, undoArmed := index, true;
        index := NextActive(index, mask, pool);
      }
    }

    method LostWindow()
      requires Valid()
      modifies this
      ensures Valid() && Current() == Lost(Cfg(), old(Current()))
    {
      badWindows := 0;
      ModWrap(sweepWindows + 1, dwell);
      sweepWindows := (sweepWindows + 1) % dwell;
      if undoArmed {
        undoArmed := false;
        index := undoIndex;
      } else if sweepWindows == 0 {
        ModWrap(index + 1, pool);
        index := (index + 1) % pool;
      }
    }

    method KeepaliveTick(beacon: nat, staged: Option<seq<bv8>>, acked: bool, penalty: nat)
      requires Valid() && (staged.Some? ==> |staged.value| == |mask|)
      modifies this
      ensures Valid()
      ensures Current() == Tick(Cfg(), old(Current()), Window(beacon, Staged(staged), acked, penalty))
    {
      if beacon != epoch {
        AdoptEpoch(beacon, staged);
      } else if acked {
        ConnectedWindow(penalty);
      } else {
        LostWindow();
      }
    }
  }

  lemma {:induction false} CandidateAfter(index: nat, mask: set<nat>, step: nat, pool: nat)
    requires index < pool && 1 <= step <= pool
    ensures var first, candidate := IndexNext(index, pool), (index + step) % pool;
      && Advance(first, step - 1, pool) == candidate
      && StepsToActive(candidate, mask, pool, pool - (step - 1))
         == if candidate in mask then 0 else 1 + StepsToActive(Advance(first, step, pool), mask, pool, pool - step)
  {
    AdvanceWraps(index, step, pool);
    AdvanceMore(IndexNext(index, pool), step - 1, pool);
    assert Advance(index, step, pool) == Advance(IndexNext(index, pool), step - 1, pool);
  }

  /** The loop over the next `count` candidates. */
  method NextActive(index: nat, mask: seq<bv8>, pool: nat) returns (next: nat)
    requires index < pool <= 8 * |mask|
    ensures next == IndexNextActive(index, Members(mask, pool), pool)
  {
    ghost var members, first := Members(mask, pool), IndexNext(index, pool);
    for step := 1 to pool + 1
      invariant StepsToActive(first, members, pool, pool)
             == step - 1 + StepsToActive(Advance(first, step - 1, pool), members, pool, pool - (step - 1))
    {
      var candidate := (index + step) % pool;
      CandidateAfter(index, members, step, pool);
      if Get(mask, candidate) {
        return candidate;
      }
    }
    next := index;
  }
}
