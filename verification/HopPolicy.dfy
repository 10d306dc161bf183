/** Channel masks and the (epoch, mask) to channel map both ends share (src/hop_policy.c). */
module HopPolicy {
  import opened Common
  import opened Bitmap

  const RETEST_LEVEL_MAX := 6
  const U16_MAX := 0xFFFF

  function Pool(n: nat): (s: set<nat>)
    ensures forall c: nat :: c in s <==> c < n
    ensures |s| == n
  {
    if n == 0 then {} else Pool(n - 1) + {n - 1}
  }

  function IndexNext(index: nat, count: nat): nat
    requires index < count
  {
    if index + 1 == count then 0 else index + 1
  }

  // ---- first active index from a base ----

  /** Steps from `index` around the pool to the first active one, `limit` when there is none. */
  function StepsToActive(index: nat, mask: set<nat>, pool: nat, limit: nat): (steps: nat)
    requires index < pool
    ensures steps <= limit
    decreases limit
  {
    if limit == 0 || index in mask then 0 else 1 + StepsToActive(IndexNext(index, pool), mask, pool, limit - 1)
  }

  function Advance(index: nat, steps: nat, pool: nat): (r: nat)
    requires index < pool
    ensures r < pool
    decreases steps
  {
    if steps == 0 then index else Advance(IndexNext(index, pool), steps - 1, pool)
  }

  lemma {:induction false} AdvanceIs(index: nat, steps: nat, pool: nat)
    requires index < pool && steps <= pool
    ensures Advance(index, steps, pool) == if index + steps < pool then index + steps else index + steps - pool
    decreases steps
  {
    if steps > 0 {
      AdvanceIs(IndexNext(index, pool), steps - 1, pool);
    }
  }

  lemma {:induction false} StepsAreFirst(index: nat, mask: set<nat>, pool: nat, limit: nat)
    requires index < pool
    ensures var s := StepsToActive(index, mask, pool, limit);
      && (forall t :: 0 <= t < s ==> Advance(index, t, pool) !in mask)
      && (s < limit ==> Advance(index, s, pool) in mask)
    decreases limit
  {
    if limit > 0 && index !in mask {
      StepsAreFirst(IndexNext(index, pool), mask, pool, limit - 1);
      forall t | 0 <= t < StepsToActive(index, mask, pool, limit)
        ensures Advance(index, t, pool) !in mask
      {
        if t > 0 {
          assert Advance(index, t, pool) == Advance(IndexNext(index, pool), t - 1, pool);
        }
      }
    }
  }

  /** `x % k`, by taking `k` away. */
  function Remainder(x: nat, k: nat): (r: nat)
    requires k > 0
    ensures r < k
    decreases x
  {
    if x < k then x else Remainder(x - k, k)
  }

  lemma {:induction false} RemainderIs(x: nat, k: nat)
    requires k > 0
    ensures Remainder(x, k) == x % k
    decreases x
  {
    if x >= k {
      RemainderIs(x - k, k);
      DivMod(x - k, k);
      assert ((x - k) / k + 1) * k == (x - k) / k * k + k;
      ModIs(x, (x - k) / k + 1, (x - k) % k, k);
    } else {
      ModIs(x, 0, x, k);
    }
  }

  /** The channel index of an epoch: the first active one from `epoch % pool`, or the base itself. */
  function ChannelFor(epoch: nat, mask: set<nat>, pool: nat): (channel: nat)
    requires pool > 0
    ensures channel < pool
  {
    var base := Remainder(epoch, pool);
    var steps := StepsToActive(base, mask, pool, pool);
    if steps == pool then base else Advance(base, steps, pool)
  }

  lemma {:induction false} ReachedWithin(base: nat, target: nat, pool: nat) returns (t: nat)
    requires base < pool && target < pool
    ensures t < pool && Advance(base, t, pool) == target
  {
    t := if target >= base then target - base else target + pool - base;
    AdvanceIs(base, t, pool);
  }

  /** The derived channel is active whenever any channel is. */
  lemma {:induction false} ChannelIsActive(epoch: nat, mask: set<nat>, pool: nat)
    requires pool > 0 && exists c :: c in mask && c < pool
    ensures ChannelFor(epoch, mask, pool) in mask
  {
    var c :| c in mask && c < pool;
    var t := ReachedWithin(Remainder(epoch, pool), c, pool);
    StepsAreFirst(Remainder(epoch, pool), mask, pool, pool);
  }

  /** `u` channels on from `base`, around the pool. */
  function Around(base: nat, u: nat, pool: nat): nat
    requires pool > 0
  {
    (base + u) % pool
  }

  /** The channel of an epoch, whatever the mask: the first active one counted up from `epoch % pool`
      around the pool, that one itself if it is active, or if none is. */
  lemma {:induction false} ChannelIs(epoch: nat, mask: set<nat>, pool: nat) returns (t: nat)
    requires pool > 0
    ensures t < pool && ChannelFor(epoch, mask, pool) == Around(epoch % pool, t, pool)
    ensures forall u :: 0 <= u < t ==> Around(epoch % pool, u, pool) !in mask
    ensures Around(epoch % pool, t, pool) in mask || (t == 0 && forall c :: 0 <= c < pool ==> c !in mask)
    ensures epoch % pool in mask ==> ChannelFor(epoch, mask, pool) == epoch % pool
  {
    var base := epoch % pool;
    var s := StepsToActive(base, mask, pool, pool);
    RemainderIs(epoch, pool);
    FirstFrom(base, mask, pool);
    t := if s == pool then 0 else s;
    AdvanceWraps(base, t, pool);
    if s == pool { NoneActive(base, mask, pool); }
  }

  lemma {:induction false} FirstFrom(base: nat, mask: set<nat>, pool: nat)
    requires base < pool
    ensures var s := StepsToActive(base, mask, pool, pool);
      && (forall u :: 0 <= u < s ==> Around(base, u, pool) !in mask)
      && (s < pool ==> Around(base, s, pool) in mask)
  {
    var s := StepsToActive(base, mask, pool, pool);
    StepsAreFirst(base, mask, pool, pool);
    forall u | 0 <= u < s ensures Around(base, u, pool) !in mask { AdvanceWraps(base, u, pool); }
    AdvanceWraps(base, s, pool);
  }

  lemma {:induction false} NoneActive(base: nat, mask: set<nat>, pool: nat)
    requires base < pool && forall u :: 0 <= u < pool ==> Around(base, u, pool) !in mask
    ensures forall c :: 0 <= c < pool ==> c !in mask
  {
    forall c: nat | c < pool ensures c !in mask {
      var t := ReachedWithin(base, c, pool);
      AdvanceWraps(base, t, pool);
      assert Around(base, t, pool) == c;
    }
  }

  /** Rendezvous of two ends with different masks: if each end's channel is active in the other's
      mask, they are on the same channel. */
  lemma {:induction false} EndsAgree(epoch: nat, mask: set<nat>, mask': set<nat>, pool: nat)
    requires pool > 0
    requires ChannelFor(epoch, mask, pool) in mask' && ChannelFor(epoch, mask', pool) in mask
    ensures ChannelFor(epoch, mask, pool) == ChannelFor(epoch, mask', pool)
  {
    var base := Remainder(epoch, pool);
    StepsAreFirst(base, mask, pool, pool);
    StepsAreFirst(base, mask', pool, pool);
    var s, s' := StepsToActive(base, mask, pool, pool), StepsToActive(base, mask', pool, pool);
    var c, c' := ChannelFor(epoch, mask, pool), ChannelFor(epoch, mask', pool);
    var t := ReachedWithin(base, c, pool);
    var t' := ReachedWithin(base, c', pool);
  }

  /** The loop that derives a channel from a stored mask. */
  method ChannelForEpochMasked(epoch: nat, mask: seq<bv8>, pool: nat) returns (channel: nat)
    requires 0 < pool <= 8 * |mask|
    ensures channel == ChannelFor(epoch, Members(mask, pool), pool)
  {
    var base := epoch % pool;
    RemainderIs(epoch, pool);
    ghost var members := Members(mask, pool);
    for step := 0 to pool
      invariant StepsToActive(base, members, pool, pool)
             == step + StepsToActive(Advance(base, step, pool), members, pool, pool - step)
    {
      var index := (base + step) % pool;
      NextCandidate(base, members, step, pool);
      if Get(mask, index) {
        return index;
      }
    }
    channel := base;
  }

  lemma {:induction false} NextCandidate(base: nat, mask: set<nat>, step: nat, pool: nat)
    requires base < pool && step < pool
    ensures var index := (base + step) % pool;
      && Advance(base, step, pool) == index
      && StepsToActive(index, mask, pool, pool - step)
         == if index in mask then 0 else 1 + StepsToActive(Advance(base, step + 1, pool), mask, pool, pool - step - 1)
  {
    AdvanceWraps(base, step, pool);
    AdvanceMore(base, step, pool);
  }

  lemma {:induction false} ModWrap(x: nat, pool: nat)
    requires 0 < pool && x < 2 * pool
    ensures x % pool == if x < pool then x else x - pool
  {
    if x >= pool {
      assert x == pool + (x - pool);
      assert x / pool == 1;
    }
  }

  lemma {:induction false} AdvanceWraps(base: nat, step: nat, pool: nat)
    requires base < pool && step <= pool
    ensures Advance(base, step, pool) == (base + step) % pool
  {
    AdvanceIs(base, step, pool);
    ModWrap(base + step, pool);
  }

  lemma {:induction false} AdvanceMore(base: nat, step: nat, pool: nat)
    requires base < pool
    ensures Advance(base, step + 1, pool) == IndexNext(Advance(base, step, pool), pool)
    decreases step
  {
    if step > 0 {
      AdvanceMore(IndexNext(base, pool), step - 1, pool);
    }
  }

  /** Next active index after this one, for a peripheral leaving a degraded channel. */
  function IndexNextActive(index: nat, mask: set<nat>, pool: nat): (next: nat)
    requires index < pool
    ensures next < pool
  {
    var first := IndexNext(index, pool);
    var steps := StepsToActive(first, mask, pool, pool);
    if steps == pool then index else Advance(first, steps, pool)
  }

  /** It is the first active one of those after `index`, `index` itself last of all. */
  lemma {:induction false} NextActiveIs(index: nat, mask: set<nat>, pool: nat) returns (t: nat)
    requires index < pool
    ensures 0 < t <= pool && IndexNextActive(index, mask, pool) == Around(index, t, pool)
    ensures forall u :: 0 < u < t ==> Around(index, u, pool) !in mask
    ensures Around(index, t, pool) in mask || (t == pool && forall c :: 0 <= c < pool ==> c !in mask)
  {
    var first := IndexNext(index, pool);
    var s := StepsToActive(first, mask, pool, pool);
    FirstFrom(first, mask, pool);
    t := if s == pool then pool else s + 1;
    forall u | 0 < u <= pool ensures Around(index, u, pool) == Around(first, u - 1, pool) { NextFrom(index, u, pool); }
    if s == pool {
      ModWrap(index + pool, pool);
      NoneActive(first, mask, pool);
    } else {
      AdvanceWraps(first, s, pool);
    }
  }

  lemma {:induction false} NextFrom(index: nat, u: nat, pool: nat)
    requires index < pool && 0 < u <= pool
    ensures Around(index, u, pool) == Around(IndexNext(index, pool), u - 1, pool)
  {
    AdvanceWraps(index, u, pool);
    AdvanceWraps(IndexNext(index, pool), u - 1, pool);
    assert Advance(index, u, pool) == Advance(IndexNext(index, pool), u - 1, pool);
  }

  // ---- masks and scores ----

  function RetestThreshold(base: nat, level: nat): (windows: nat)
    ensures windows <= U16_MAX
  {
    Min(ShiftLeft(base, Min(level, RETEST_LEVEL_MAX)), U16_MAX)
  }

  /** The wait starts at the base, doubles with each level up to the sixth, and saturates at 16 bits. */
  lemma {:induction false} RetestDoubles(base: nat, level: nat)
    ensures RetestThreshold(base, 0) == if base <= 0xFFFF then base else 0xFFFF
    ensures level < 6 ==>
              RetestThreshold(base, level + 1)
              == if 2 * RetestThreshold(base, level) <= 0xFFFF then 2 * RetestThreshold(base, level) else 0xFFFF
    ensures level >= 6 ==> RetestThreshold(base, level) == RetestThreshold(base, 6)
  {
    assert ShiftLeft(base, 0) == base;
    assert ShiftLeft(base, level + 1) == 2 * ShiftLeft(base, level);
  }

  function ShiftLeft(x: nat, bits: nat): nat {
    if bits == 0 then x else 2 * ShiftLeft(x, bits - 1)
  }

  function SaturatingAdd(value: nat, add: nat): (r: nat)
    ensures value <= 255 ==> r <= 255
  {
    if value > 255 - add then 255 else value + add
  }

  function ScoreUpdate(score: nat, penalty: nat, decay: nat): nat {
    if penalty == 0 then score - Min(score, decay) else SaturatingAdd(score, penalty)
  }

  predicate Maskable(scores: seq<int>, mask: set<nat>, anchors: set<nat>, threshold: int, c: nat) {
    c < |scores| && c in mask && c !in anchors && scores[c] >= threshold
  }

  /** The worst of the first `n` maskable channels, lowest index first among equals; |scores| if none. */
  function Worst(scores: seq<int>, mask: set<nat>, anchors: set<nat>, threshold: int, n: nat): (w: nat)
    requires n <= |scores|
    ensures w == |scores| || (w < n && Maskable(scores, mask, anchors, threshold, w))
  {
    if n == 0 then |scores|
    else
      var before := Worst(scores, mask, anchors, threshold, n - 1);
      if !Maskable(scores, mask, anchors, threshold, n - 1) then before
      else if before == |scores| || scores[n - 1] > scores[before] then n - 1
      else before
  }

  lemma {:induction false} WorstIsWorst(scores: seq<int>, mask: set<nat>, anchors: set<nat>, threshold: int, n: nat)
    requires n <= |scores|
    ensures var w := Worst(scores, mask, anchors, threshold, n);
      && (w == |scores| || (w < n && w in mask && w !in anchors && scores[w] >= threshold))
      && forall c :: 0 <= c < n && c in mask && c !in anchors && scores[c] >= threshold ==>
           w < |scores| && scores[c] <= scores[w] && (scores[c] == scores[w] ==> w <= c)
  {
    if n > 0 {
      WorstIsWorst(scores, mask, anchors, threshold, n - 1);
    }
  }

  /** A quiet window takes the decay off a score, a bad one adds its penalty, within a byte. */
  lemma {:induction false} ScoreMoves(score: nat, penalty: nat, decay: nat)
    requires score <= 255
    ensures var r := ScoreUpdate(score, penalty, decay);
      && r <= 255
      && (penalty == 0 ==> r == if score >= decay then score - decay else 0)
      && (penalty > 0 ==> r == if score + penalty <= 255 then score + penalty else 255)
  {
  }

  method WorstChannel(scores: seq<int>, mask: seq<bv8>, anchorMask: seq<bv8>, threshold: int) returns (worst: nat)
    requires |scores| <= 8 * |mask| && |scores| <= 8 * |anchorMask|
    ensures worst == Worst(scores, Members(mask, |scores|), Members(anchorMask, |scores|), threshold, |scores|)
  {
    worst := |scores|;
    for channel := 0 to |scores|
      invariant worst == Worst(scores, Members(mask, |scores|), Members(anchorMask, |scores|), threshold, channel)
    {
      if !Get(anchorMask, channel) && Get(mask, channel) && scores[channel] >= threshold {
        if worst == |scores| || scores[channel] > scores[worst] {
          worst := channel;
        }
      }
    }
  }

  lemma {:induction false} MembersNext(mask: seq<bv8>, n: nat)
    requires n < 8 * |mask|
    ensures Members(mask, n + 1) == Members(mask, n) + if Get(mask, n) then {n} else {}
    ensures |Members(mask, n + 1)| == |Members(mask, n)| + if Get(mask, n) then 1 else 0
  {
  }

  method ActiveCount(mask: seq<bv8>, pool: nat) returns (count: nat)
    requires pool <= 8 * |mask|
    ensures count == |Members(mask, pool)|
  {
    count := 0;
    for index := 0 to pool
      invariant count == |Members(mask, index)|
    {
      MembersNext(mask, index);
      if Get(mask, index) {
        count := count + 1;
      }
    }
  }

  // ---- the boot survey ----

  /** Masks the worst maskable channel while more than `minActive` stay active. */
  function Surveyed(energy: seq<int>, mask: set<nat>, anchors: set<nat>, minActive: nat, threshold: int): (r: set<nat>)
    ensures r <= mask
    decreases |mask|
  {
    var worst := Worst(energy, mask, anchors, threshold, |energy|);
    if |mask| <= minActive || worst == |energy| then mask
    else
      assert |mask - {worst}| == |mask| - 1;
      Surveyed(energy, mask - {worst}, anchors, minActive, threshold)
  }

  /** Anchors stay, the floor holds, only loud channels go, no quieter channel goes before a
      louder one, and it stops only at the floor or when nothing loud is left. */
  lemma {:induction false} SurveyVerdict(energy: seq<int>, mask: set<nat>, anchors: set<nat>, minActive: nat,
                                         threshold: int)
    ensures var r := Surveyed(energy, mask, anchors, minActive, threshold);
      && mask * anchors <= r
      && |r| >= Min(|mask|, minActive)
      && (forall c: nat :: c in mask - r ==> c < |energy| && c !in anchors && energy[c] >= threshold)
      && (forall c: nat, d: nat :: c in mask - r && d in r - anchors && d < |energy| && energy[d] >= threshold
            ==> energy[d] <= energy[c])
      && (|r| <= minActive || forall d: nat :: d in r - anchors && d < |energy| ==> energy[d] < threshold)
    decreases |mask|
  {
    var worst := Worst(energy, mask, anchors, threshold, |energy|);
    WorstIsWorst(energy, mask, anchors, threshold, |energy|);
    if |mask| > minActive && worst != |energy| {
      assert |mask - {worst}| == |mask| - 1;
      SurveyVerdict(energy, mask - {worst}, anchors, minActive, threshold);
    }
  }

  method SurveyMask(energy: seq<int>, mask: seq<bv8>, anchorMask: seq<bv8>, minActive: nat, threshold: int)
    returns (surveyed: seq<bv8>, masked: nat)
    requires |energy| <= 8 * |mask| && |energy| <= 8 * |anchorMask|
    ensures |surveyed| == |mask|
    ensures Members(surveyed, |energy|)
         == Surveyed(energy, Members(mask, |energy|), Members(anchorMask, |energy|), minActive, threshold)
    ensures masked == |Members(mask, |energy|)| - |Members(surveyed, |energy|)|
  {
    surveyed, masked := mask, 0;
    ghost var pool, anchors := |energy|, Members(anchorMask, |energy|);
    var count := ActiveCount(surveyed, |energy|);
    while count > minActive
      invariant |surveyed| == |mask| && count == |Members(surveyed, pool)| == |Members(mask, pool)| - masked
      invariant Surveyed(energy, Members(mask, pool), anchors, minActive, threshold)
             == Surveyed(energy, Members(surveyed, pool), anchors, minActive, threshold)
      decreases count
    {
      var worst := WorstChannel(energy, surveyed, anchorMask, threshold);
      if worst == |energy| {
        return;
      }
      ghost var before := Members(surveyed, pool);
      surveyed := Set(surveyed, worst, false);
      assert Members(surveyed, pool) == before - {worst};
      masked := masked + 1;
      count := ActiveCount(surveyed, |energy|);
    }
  }
}
