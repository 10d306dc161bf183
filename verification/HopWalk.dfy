/** Leaving a silent channel: how often the central escapes, and which channels that walks over
    (src/hop_central.c:237-259, src/hop_central.c:370-431). */
module HopWalk {
  import opened Common
  import opened HopPolicy
  import opened HopCentral

  // ---- when it escapes ----

  /** Windows without a pipe heard, and escapes since one was. */
  datatype Silence = Silence(windows: nat, escapes: nat)

  /** One decision window: what it leaves, and whether to escape. */
  function Listened(s: Silence, heard: bool, patience: nat, limit: nat): (Silence, bool) {
    var t := if heard then Silence(0, 0) else s.(windows := (s.windows + 1) % U16_TURN);
    if t.windows >= patience && t.escapes < limit then (Silence(0, t.escapes + 1), true) else (t, false)
  }

  class SilenceWatch {
    const patience: nat
    const limit: nat
    var windows: nat
    var escapes: nat

    function State(): Silence
      reads this
    {
      Silence(windows, escapes)
    }

    constructor (pool: nat)
      ensures State() == Silence(0, 0) && patience == Min(2 * pool, 32) && limit == pool
    {
      patience, limit, windows, escapes := Min(2 * pool, 32), pool, 0, 0;
    }

    method DecisionWindow(heard: bool) returns (escape: bool)
      modifies this
      ensures (State(), escape) == Listened(old(State()), heard, patience, limit)
    {
      if heard {
        windows, escapes := 0, 0;
      } else {
        windows := (windows + 1) % U16_TURN;
      }
      escape := false;
      if windows >= patience && escapes < limit {
        escapes, windows := escapes + 1, 0;
        escape := true;
      }
    }
  }

  /** The escapes of a run of windows, and the silence after it. */
  function Listening(heard: seq<bool>, patience: nat, limit: nat): (Silence, seq<bool>) {
    if heard == [] then (Silence(0, 0), [])
    else
      var before := Listening(heard[..|heard| - 1], patience, limit);
      var r := Listened(before.0, heard[|heard| - 1], patience, limit);
      (r.0, before.1 + [r.1])
  }

  function SilentFor(heard: seq<bool>): nat {
    if heard == [] || heard[|heard| - 1] then 0 else SilentFor(heard[..|heard| - 1]) + 1
  }

  /** What the counters are after `n` silent windows: every `patience`-th window escaped, up to the limit. */
  ghost predicate Counts(s: Silence, n: nat, patience: nat, limit: nat) {
    && s.escapes <= limit
    && if s.escapes < limit then n == s.escapes * patience + s.windows && s.windows < patience
      else n >= limit * patience
  }

  lemma {:induction false} CountsStep(s: Silence, n: nat, patience: nat, limit: nat)
    requires Counts(s, n, patience, limit) && 0 < patience < U16_TURN
    ensures var r := Listened(s, false, patience, limit);
      && Counts(r.0, n + 1, patience, limit)
      && (r.1 <==> s.escapes < limit && n + 1 == (s.escapes + 1) * patience)
  {
    assert (s.escapes + 1) * patience == s.escapes * patience + patience;
    if s.escapes + 1 == limit { assert limit * patience == s.escapes * patience + patience; }
  }

  lemma {:induction false} CountsKept(heard: seq<bool>, patience: nat, limit: nat)
    requires 0 < patience < U16_TURN
    ensures Counts(Listening(heard, patience, limit).0, SilentFor(heard), patience, limit)
  {
    assert 0 * patience == 0;
    if heard != [] {
      var init := heard[..|heard| - 1];
      CountsKept(init, patience, limit);
      if !heard[|heard| - 1] { CountsStep(Listening(init, patience, limit).0, SilentFor(init), patience, limit); }
    }
  }

  lemma {:induction false} TimesMonotone(a: nat, b: nat, k: nat)
    requires a <= b
    ensures a * k <= b * k
  {
    Distribute(b, a, k);
    if b > a && k > 0 { MulGe(b - a, k); }
  }

  lemma {:induction false} Quotient(n: nat, q: nat, r: nat, k: nat)
    requires k > 0 && r < k && n == q * k + r
    ensures n / k == q && n % k == r
  {
    DivMod(n, k);
    QuotientUnique(n / k, q, n % k, r, k);
  }

  /** A window escapes exactly when it is silent, the silence has lasted a whole number of patiences, and
      there have been fewer escapes in it than channels. */
  lemma {:induction false} EscapesIff(heard: seq<bool>, patience: nat, limit: nat)
    requires heard != [] && 0 < patience < U16_TURN
    ensures var n := SilentFor(heard);
      Listened(Listening(heard[..|heard| - 1], patience, limit).0, heard[|heard| - 1], patience, limit).1
      <==> n > 0 && n % patience == 0 && n / patience <= limit
  {
    var init, n := heard[..|heard| - 1], SilentFor(heard);
    if !heard[|heard| - 1] {
      var s := Listening(init, patience, limit).0;
      CountsKept(init, patience, limit);
      CountsStep(s, n - 1, patience, limit);
      EscapeTime(s, n - 1, patience, limit);
    }
  }

  lemma {:induction false} EscapeTime(s: Silence, n: nat, patience: nat, limit: nat)
    requires Counts(s, n, patience, limit) && patience > 0
    ensures s.escapes < limit && n + 1 == (s.escapes + 1) * patience
       <==> (n + 1) % patience == 0 && (n + 1) / patience <= limit
  {
    if s.escapes < limit {
      Distribute(s.escapes + 1, s.escapes, patience);
      if s.windows + 1 < patience { Quotient(n + 1, s.escapes, s.windows + 1, patience); }
      else { Quotient(n + 1, s.escapes + 1, 0, patience); }
    } else {
      PastLimit(n, patience, limit);
    }
  }

  lemma {:induction false} PastLimit(n: nat, patience: nat, limit: nat)
    requires patience > 0 && n >= limit * patience
    ensures !((n + 1) % patience == 0 && (n + 1) / patience <= limit)
  {
    DivMod(n + 1, patience);
    if (n + 1) / patience <= limit { TimesMonotone((n + 1) / patience, limit, patience); }
  }

  // ---- where it goes ----

  function Hops(cfg: Config, h: Hop, n: nat): (r: Hop)
    requires h.Shaped(cfg.pool) && cfg.pool > 0
    ensures r.Shaped(cfg.pool)
  {
    if n == 0 then h else HopToNext(cfg, Hops(cfg, h, n - 1))
  }

  /** The epoch `n` hops on. */
  function EpochOn(e: nat, n: nat): nat { if n == 0 then e else NextEpoch(EpochOn(e, n - 1)) }

  lemma {:induction false} EpochOnIs(e: nat, n: nat)
    requires e < EPOCHS
    ensures EpochOn(e, n) == (e + n) % EPOCHS
  {
    if n > 0 {
      EpochOnIs(e, n - 1);
      NextIs(EpochOn(e, n - 1), e + (n - 1), e + n);
    } else {
      ModIs(e, 0, e, EPOCHS);
    }
  }

  lemma {:induction false} NextIs(epoch: nat, x: nat, next: nat)
    requires epoch == x % EPOCHS && next == x + 1
    ensures NextEpoch(epoch) == next % EPOCHS
  {
    RemainderIs(epoch + 1, EPOCHS);
    Carry(x, next);
  }

  lemma {:induction false} Carry(x: nat, next: nat)
    requires next == x + 1
    ensures (x % EPOCHS + 1) % EPOCHS == next % EPOCHS
  {
  }

  lemma {:induction false} EpochAdds(e: nat, k: nat, n: nat)
    ensures EpochOn(EpochOn(e, k), n) == EpochOn(e, k + n)
  {
    if n > 0 { EpochAdds(e, k, n - 1); }
  }

  /** `r` is `k` hops on from `h`: on the mask that was pending, and the channel of that epoch. */
  ghost predicate HopsOn(cfg: Config, h: Hop, k: nat, r: Hop) {
    && cfg.pool > 0 && r.epoch == EpochOn(h.epoch, k) && !r.pendingValid
    && r.active == (if h.pendingValid then h.pending else h.active)
    && r.index == ChannelFor(r.epoch, r.active, cfg.pool)
  }

  lemma {:induction false} HopsAre(cfg: Config, h: Hop, k: nat)
    requires h.Shaped(cfg.pool) && cfg.pool > 0 && k > 0
    ensures HopsOn(cfg, h, k, Hops(cfg, h, k))
  {
    if k == 1 {
      assert Hops(cfg, h, 0) == h;
    } else {
      HopsAre(cfg, h, k - 1);
      HopOn(cfg, h, k - 1, Hops(cfg, h, k - 1));
    }
  }

  lemma {:induction false} HopOn(cfg: Config, h: Hop, k: nat, r: Hop)
    requires r.Shaped(cfg.pool) && HopsOn(cfg, h, k, r)
    ensures HopsOn(cfg, h, k + 1, HopToNext(cfg, r))
  {
  }

  /** Within a pool's worth of hops from epoch `e` the walk is on channel `c`. */
  ghost predicate Visits(e: nat, mask: set<nat>, pool: nat, c: nat)
    requires pool > 0
  {
    exists k :: 0 < k <= pool && Visit(e, mask, pool, k) == c
  }

  function Visit(e: nat, mask: set<nat>, pool: nat, k: nat): nat
    requires pool > 0
  {
    ChannelFor(EpochOn(e, k), mask, pool)
  }

  ghost predicate WalksAll(e: nat, pool: nat)
    requires pool > 0
  {
    forall mask: set<nat>, c: nat :: c in mask && c < pool ==> Visits(e, mask, pool, c)
  }

  lemma {:induction false} HopsVisit(cfg: Config, h: Hop, k: nat)
    requires h.Shaped(cfg.pool) && cfg.pool > 0 && k > 0
    ensures Hops(cfg, h, k).index
            == Visit(h.epoch, if h.pendingValid then h.pending else h.active, cfg.pool, k)
  {
    HopsAre(cfg, h, k);
  }

  /** The eight-bit epoch does not wrap on the walk, or wraps at its start, or wraps onto the same channel. */
  predicate EvenWalk(e: nat, pool: nat)
    requires pool > 0
  {
    e + pool < EPOCHS || e == EPOCHS - 1 || EPOCHS % pool == 0
  }

  lemma {:induction false} OnChannel(epoch: nat, mask: set<nat>, pool: nat)
    requires pool > 0 && epoch % pool in mask
    ensures ChannelFor(epoch, mask, pool) == epoch % pool
  {
    var t := ChannelIs(epoch, mask, pool);
  }

  /** Some number in `pool` consecutive ones has remainder `c`. */
  lemma {:induction false} Within(start: nat, c: nat, pool: nat) returns (k: nat)
    requires pool > 0 && c < pool
    ensures k < pool && (start + k) % pool == c
  {
    DivMod(start, pool);
    var q, r := start / pool, start % pool;
    if c >= r {
      k := c - r;
      ModIs(start + k, q, c, pool);
    } else {
      k := c + pool - r;
      assert (q + 1) * pool == q * pool + pool;
      ModIs(start + k, q + 1, c, pool);
    }
  }

  lemma {:induction false} WrapKeeps(x: nat, pool: nat)
    requires pool > 0 && EPOCHS % pool == 0 && x < 2 * EPOCHS
    ensures (x % EPOCHS) % pool == x % pool
  {
    if x >= EPOCHS {
      var y, q := x - EPOCHS, EPOCHS / pool;
      DivMod(EPOCHS, pool);
      DivMod(y, pool);
      assert (q + y / pool) * pool == q * pool + (y / pool) * pool;
      ModIs(x, q + y / pool, y % pool, pool);
    }
  }

  /** On an even walk some hop's epoch falls on the channel. */
  lemma {:induction false} EvenHop(e: nat, pool: nat, c: nat) returns (k: nat)
    requires 0 < pool < EPOCHS && e < EPOCHS && EvenWalk(e, pool) && c < pool
    ensures 0 < k <= pool && EpochOn(e, k) % pool == c
  {
    if e == EPOCHS - 1 {
      k := c + 1;
      FromZero(c, pool);
    } else {
      var j := Within(e + 1, c, pool);
      k := j + 1;
      NoTurn(e, k, pool);
    }
    EpochOnIs(e, k);
  }

  lemma {:induction false} FromZero(c: nat, pool: nat)
    requires c < pool < EPOCHS
    ensures (EPOCHS - 1 + (c + 1)) % EPOCHS % pool == c
  {
    ModIs(c, 0, c, pool);
    ModIs(EPOCHS + c, 1, c, EPOCHS);
  }

  lemma {:induction false} NoTurn(e: nat, k: nat, pool: nat)
    requires 0 < k <= pool < EPOCHS && e < EPOCHS && (e + pool < EPOCHS || EPOCHS % pool == 0)
    ensures (e + k) % EPOCHS % pool == (e + k) % pool
  {
    if EPOCHS % pool == 0 { WrapKeeps(e + k, pool); } else { ModIs(e + k, 0, e + k, EPOCHS); }
  }

  lemma {:induction false} EvenWalks(e: nat, mask: set<nat>, pool: nat, c: nat)
    requires 0 < pool < EPOCHS && e < EPOCHS && EvenWalk(e, pool) && c in mask && c < pool
    ensures Visits(e, mask, pool, c)
  {
    var k := EvenHop(e, pool, c);
    OnChannel(EpochOn(e, k), mask, pool);
    assert Visit(e, mask, pool, k) == c;
  }

  /** A channel the walk over a whole pool misses: `s` epochs before the wrap, `r` left over by it. */
  function Missed(e: nat, pool: nat): nat
    requires 0 < pool && e < EPOCHS
  {
    var s, r := EPOCHS - 1 - e, EPOCHS % pool;
    if 0 < r <= s < pool then pool - s + r - 1 else pool - 1
  }

  lemma {:induction false} BeforeWrap(x: nat, j: nat, pool: nat)
    requires 0 < pool < EPOCHS && 0 < j < pool && x + j == EPOCHS
    ensures var r := EPOCHS % pool; x % pool == if j <= r then r - j else pool + r - j
  {
    var q, r := EPOCHS / pool, EPOCHS % pool;
    DivMod(EPOCHS, pool);
    if j <= r {
      ModIs(x, q, r - j, pool);
    } else {
      assert q >= 1 && (q - 1) * pool == q * pool - pool;
      ModIs(x, q - 1, pool + r - j, pool);
    }
  }

  lemma {:induction false} MissesAt(e: nat, pool: nat, k: nat)
    requires 0 < pool < EPOCHS && e < EPOCHS && !EvenWalk(e, pool) && 0 < k <= pool
    ensures EpochOn(e, k) % pool != Missed(e, pool)
  {
    EpochOnIs(e, k);
    var s, r := EPOCHS - 1 - e, EPOCHS % pool;
    if k <= s {
      BeforeWrap(e + k, s - k + 1, pool);
      ModIs(e + k, 0, e + k, EPOCHS);
    } else {
      ModIs(e + k, 1, k - s - 1, EPOCHS);
      ModIs(k - s - 1, 0, k - s - 1, pool);
    }
  }

  lemma {:induction false} UnevenMisses(e: nat, pool: nat)
    requires 0 < pool < EPOCHS && e < EPOCHS && !EvenWalk(e, pool)
    ensures !WalksAll(e, pool)
  {
    var c := Missed(e, pool);
    forall k | 0 < k <= pool ensures Visit(e, Pool(pool), pool, k) != c {
      MissesAt(e, pool, k);
      OnChannel(EpochOn(e, k), Pool(pool), pool);
    }
    assert c in Pool(pool) && !Visits(e, Pool(pool), pool, c);
  }

  /** A pool's worth of hops walks over every active channel, whatever the mask, exactly when the epoch
      does not wrap on the way, or wraps with the first hop, or the pool divides the epoch's turn. */
  lemma {:induction false} WalkIff(e: nat, pool: nat)
    requires 0 < pool < EPOCHS && e < EPOCHS
    ensures WalksAll(e, pool) <==> EvenWalk(e, pool)
  {
    if EvenWalk(e, pool) {
      forall mask: set<nat>, c: nat | c in mask && c < pool ensures Visits(e, mask, pool, c) {
        EvenWalks(e, mask, pool, c);
      }
    } else {
      UnevenMisses(e, pool);
    }
  }

  // ---- over runs of the engine ----

  function HopsIn(w: Window): nat { (if w.vote then 1 else 0) + if w.escape then 1 else 0 }

  function HopCount(windows: seq<Window>): nat {
    if windows == [] then 0 else HopsIn(windows[0]) + HopCount(windows[1..])
  }

  lemma {:induction false} RecomputeKeeps(cfg: Config, h: Hop, polled: bool)
    requires h.Shaped(cfg.pool)
    ensures var r := Recompute(cfg, h, polled); r.epoch == h.epoch && r.active == h.active && r.index == h.index
  {
  }

  /** `n` hops later: the epoch moved by them, the active mask and the channel not without one. */
  ghost predicate Hopped(cfg: Config, h: Hop, n: nat, r: Hop) {
    && cfg.pool > 0 && r.epoch == EpochOn(h.epoch, n)
    && (n == 0 ==> r.active == h.active && r.index == h.index)
    && (n > 0 ==> !r.pendingValid && r.index == ChannelFor(r.epoch, r.active, cfg.pool))
  }

  lemma {:induction false} HoppedMore(cfg: Config, h: Hop, n: nat, r: Hop)
    requires r.Shaped(cfg.pool) && Hopped(cfg, h, n, r)
    ensures Hopped(cfg, h, n + 1, HopToNext(cfg, r))
  {
  }

  /** A window hops for a vote and for an escape, and not otherwise. */
  lemma {:induction false} TickHops(cfg: Config, h: Hop, w: Window)
    requires h.Shaped(cfg.pool) && cfg.pool > 0
    ensures Hopped(cfg, h, HopsIn(w), Tick(cfg, h, w))
  {
    var r := Recompute(cfg, Score(h, cfg.pool, w), w.polled);
    RecomputeKeeps(cfg, Score(h, cfg.pool, w), w.polled);
    assert Hopped(cfg, h, 0, r);
    HoppedMore(cfg, h, 0, r);
    if w.vote { HoppedMore(cfg, h, 1, HopToNext(cfg, r)); }
  }

  function EpochAfter(e: nat, windows: seq<Window>): nat
    decreases |windows|
  {
    if windows == [] then e else EpochAfter(EpochOn(e, HopsIn(windows[0])), windows[1..])
  }

  lemma {:induction false} EpochFollows(cfg: Config, h: Hop, windows: seq<Window>)
    requires h.Shaped(cfg.pool) && cfg.pool > 0
    ensures Ticks(cfg, h, windows).epoch == EpochAfter(h.epoch, windows)
    decreases |windows|
  {
    if windows != [] {
      TickHops(cfg, h, windows[0]);
      EpochFollows(cfg, Tick(cfg, h, windows[0]), windows[1..]);
    }
  }

  lemma {:induction false} EpochCounted(e: nat, windows: seq<Window>)
    ensures EpochAfter(e, windows) == EpochOn(e, HopCount(windows))
    decreases |windows|
  {
    if windows != [] {
      EpochCounted(EpochOn(e, HopsIn(windows[0])), windows[1..]);
      EpochAdds(e, HopsIn(windows[0]), HopCount(windows[1..]));
    }
  }

  /** Over every run the epoch counts the hops. */
  lemma {:induction false} EpochCounts(cfg: Config, h: Hop, windows: seq<Window>)
    requires h.Shaped(cfg.pool) && cfg.pool > 0
    ensures Ticks(cfg, h, windows).epoch == EpochOn(h.epoch, HopCount(windows))
  {
    EpochFollows(cfg, h, windows);
    EpochCounted(h.epoch, windows);
  }

  /** No window hops twice. */
  predicate SingleHops(windows: seq<Window>) { forall i :: 0 <= i < |windows| ==> HopsIn(windows[i]) <= 1 }

  lemma {:induction false} Reaches(windows: seq<Window>, k: nat) returns (m: nat)
    requires SingleHops(windows) && k <= HopCount(windows)
    ensures m <= |windows| && HopCount(windows[..m]) == k
  {
    if k == 0 {
      m := 0;
    } else {
      var n := Reaches(windows[1..], k - HopsIn(windows[0]));
      m := n + 1;
      assert windows[..m][1..] == windows[1..][..n];
    }
  }

  /** Whatever else the windows bring, a run with a pool's worth of hops from an even epoch has been on
      every anchor channel. */
  lemma {:induction false} AnchorsVisited(cfg: Config, h: Hop, windows: seq<Window>, anchor: nat) returns (m: nat)
    requires Inv(cfg, h) && EvenWalk(h.epoch, cfg.pool) && anchor in cfg.anchors
    requires SingleHops(windows) && HopCount(windows) >= cfg.pool
    ensures m <= |windows| && Ticks(cfg, h, windows[..m]).index == anchor
  {
    var k := EvenHop(h.epoch, cfg.pool, anchor);
    m := Reaches(windows, k);
    EpochCounts(cfg, h, windows[..m]);
    MaskInvariant(cfg, h, windows[..m]);
    AnchorLive(cfg, Ticks(cfg, h, windows[..m]), anchor);
  }

  lemma {:induction false} AnchorLive(cfg: Config, r: Hop, anchor: nat)
    requires Inv(cfg, r) && anchor in cfg.anchors && r.epoch % cfg.pool == anchor
    ensures r.index == anchor
  {
    OnChannel(r.epoch, r.active, cfg.pool);
  }
}
