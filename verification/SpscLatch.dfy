/** Single-producer latest-value latch (src/spsc_latch.c): claim, write, publish against
    peek, read, release, every byte copy a step of its own. */
module SpscLatch {
  import opened Common

  const TURN: nat := 0x1_0000_0000  // the claim counter is 32 bits wide

  /** The slot of the n-th claim ever made. */
  function SlotOf(n: nat, slotCount: nat): (slot: nat)
    requires slotCount >= 1
    ensures slot < slotCount
  {
    (n % TURN) % slotCount
  }

  // ---- slot arithmetic ----

  lemma {:induction false} NextMod(x: nat, k: nat)
    requires k >= 2
    ensures (x + 1) % k != x % k
  {
    var q, r := x / k, x % k;
    if r + 1 < k {
      ModIs(x + 1, q, r + 1, k);
    } else {
      assert x + 1 == (q + 1) * k;
      ModIs(x + 1, q + 1, 0, k);
    }
  }

  /** The slot being written and the slot last published can only meet when the claim counter
      wraps, and then exactly for slot counts that divide 2^32 - 1. */
  lemma {:induction false} NeighboursDiffer(slotCount: nat)
    requires slotCount >= 2
    ensures (forall n: nat :: SlotOf(n, slotCount) != SlotOf(n + 1, slotCount)) <==> (TURN - 1) % slotCount != 0
  {
    assert SlotOf(TURN - 1, slotCount) == (TURN - 1) % slotCount;
    assert SlotOf(TURN - 1 + 1, slotCount) == 0;
    if (TURN - 1) % slotCount != 0 {
      forall n: nat ensures SlotOf(n, slotCount) != SlotOf(n + 1, slotCount) { NextSlot(n, slotCount); }
    }
  }

  /** Neighbouring claims share a slot only at the wrap, and then for divisors of 2^32 - 1. */
  lemma {:induction false} NextSlot(n: nat, slotCount: nat)
    requires slotCount >= 2
    ensures SlotOf(n, slotCount) == SlotOf(n + 1, slotCount) ==> n + 1 >= TURN && (TURN - 1) % slotCount == 0
  {
    NextMod(n % TURN, slotCount);
    WrapOrNext(n);
  }

  lemma {:induction false} WrapOrNext(n: nat)
    ensures (n + 1) % TURN == if n % TURN == TURN - 1 then 0 else n % TURN + 1
    ensures n % TURN == TURN - 1 ==> n + 1 >= TURN
  {
  }

  /** Of the first `claims` claims, any `slotCount` in a row use different slots. */
  ghost predicate SlotsDistinct(slotCount: nat, claims: nat)
    requires slotCount >= 2
  {
    forall n: nat, m: nat :: n < m < n + slotCount && m < claims ==> SlotOf(n, slotCount) != SlotOf(m, slotCount)
  }

  lemma {:induction false} RegroupProduct(q: int, t: int, u: int, k: int)
    ensures q * (t * k) + u * k == (q * t + u) * k
  {
    assert q * (t * k) == (q * t) * k;
  }

  lemma {:induction false} SlotIsMod(n: nat, k: nat)
    requires k >= 2 && TURN % k == 0
    ensures SlotOf(n, k) == n % k
  {
    var q, r, t := n / TURN, n % TURN, TURN / k;
    DivMod(n, TURN);
    DivMod(r, k);
    DivMod(TURN, k);
    RegroupProduct(q, t, r / k, k);
    ModIs(n, q * t + r / k, r % k, k);
  }

  lemma {:induction false} SameRemainderApart(q: int, q': int, r: int, n: int, m: int, k: int)
    requires k > 0 && n == q * k + r && m == q' * k + r
    ensures !(n < m < n + k)
  {
    if q' > q {
      Distribute(q', q, k);
      MulGe(q' - q, k);
    } else if q' < q {
      Distribute(q, q', k);
      MulGe(q - q', k);
    }
  }

  lemma {:induction false} NearModDiffer(n: nat, m: nat, k: nat)
    requires k >= 2 && n < m < n + k
    ensures n % k != m % k
  {
    DivMod(n, k);
    DivMod(m, k);
    if n % k == m % k {
      SameRemainderApart(n / k, m / k, n % k, n, m, k);
    }
  }

  /** Around the wrap of the claim counter, two claims closer than `k` share slot 0. */
  lemma {:induction false} CollidesAtWrap(k: nat) returns (n: nat, m: nat)
    requires k >= 2 && TURN % k != 0
    ensures n < m < n + k && m == TURN && SlotOf(n, k) == SlotOf(m, k)
  {
    var q, r := TURN / k, TURN % k;
    DivMod(TURN, k);
    n, m := TURN - r, TURN;
    ModIs(n, q, 0, k);
    assert n % TURN == n && m % TURN == 0;
  }

  /** A claim counter that has not wrapped, or whose wrap the slot count divides. */
  predicate Unbroken(slotCount: nat, claims: nat)
    requires slotCount >= 2
  {
    TURN % slotCount == 0 || claims <= TURN
  }

  /** Slots stay distinct for exactly as many claims as that. */
  lemma {:induction false} DistinctIff(slotCount: nat, claims: nat)
    requires slotCount >= 2
    ensures SlotsDistinct(slotCount, claims) <==> Unbroken(slotCount, claims)
  {
    if Unbroken(slotCount, claims) {
      forall n: nat, m: nat | n < m < n + slotCount && m < claims
        ensures SlotOf(n, slotCount) != SlotOf(m, slotCount)
      {
        if claims > TURN {
          SlotIsMod(n, slotCount);
          SlotIsMod(m, slotCount);
        }
        NearModDiffer(n, m, slotCount);
      }
    } else {
      var n, m := CollidesAtWrap(slotCount);
    }
  }

  // ---- the protocol, byte by byte ----

  datatype Producer = Quiet | Writing(claim: nat, written: nat)
  datatype Consumer = Waiting | Reading(slot: nat, claim: nat, got: seq<Byte>)

  /** `values` is every value ever claimed for, `newest` the claim last published. */
  datatype World = World(published: Option<nat>, nextIndex: nat, slots: seq<seq<Byte>>, producer: Producer,
                         consumer: Consumer, values: seq<seq<Byte>>, newest: Option<nat>)

  /** A consumer may also give up without a release, as after a refused write. */
  datatype Step = Claim(value: seq<Byte>) | WriteByte | Publish | Peek | ReadByte | Release | Abandon

  datatype Shape = Shape(slotCount: nat, width: nat)

  function Start(shape: Shape): World {
    World(None, 0, Repeat(shape.slotCount, Repeat(shape.width, 0)), Quiet, Waiting, [], None)
  }

  ghost predicate WellFormed(shape: Shape, w: World) {
    && shape.slotCount >= 2
    && |w.slots| == shape.slotCount
    && (forall s :: 0 <= s < |w.slots| ==> |w.slots[s]| == shape.width)
    && (forall n :: 0 <= n < |w.values| ==> |w.values[n]| == shape.width)
    && (w.producer.Writing? ==> w.producer.claim < |w.values| && w.producer.written <= shape.width)
    && (w.consumer.Reading? ==> w.consumer.slot < shape.slotCount && |w.consumer.got| <= shape.width)
    && (w.published.Some? ==> w.newest.Some?)
    && (w.published.Some? ==> w.published.value < shape.slotCount)
  }

  /** One step; a step that is not enabled changes nothing. */
  function Do(shape: Shape, w: World, step: Step): (w': World)
    requires WellFormed(shape, w)
    ensures WellFormed(shape, w')
  {
    match step
    case Claim(value) =>
      if w.producer.Quiet? && |value| == shape.width
      then w.(producer := Writing(|w.values|, 0), values := w.values + [value], nextIndex := (w.nextIndex + 1) % TURN)
      else w
    case WriteByte =>
      if w.producer.Writing? && w.producer.written < shape.width
      then
        var slot, i := SlotOf(w.producer.claim, shape.slotCount), w.producer.written;
        w.(slots := w.slots[slot := w.slots[slot][i := w.values[w.producer.claim][i]]],
           producer := w.producer.(written := i + 1))
      else w
    case Publish =>
      if w.producer.Writing? && w.producer.written == shape.width
      then w.(published := Some(SlotOf(w.producer.claim, shape.slotCount)), newest := Some(w.producer.claim),
              producer := Quiet)
      else w
    case Peek =>
      if w.consumer.Waiting? && w.published.Some?
      then w.(consumer := Reading(w.published.value, w.newest.value, []))
      else w
    case ReadByte =>
      if w.consumer.Reading? && |w.consumer.got| < shape.width
      then w.(consumer := w.consumer.(got := w.consumer.got + [w.slots[w.consumer.slot][|w.consumer.got|]]))
      else w
    case Release =>
      if w.consumer.Reading?
      then w.(published := if w.published == Some(w.consumer.slot) then None else w.published, consumer := Waiting)
      else w
    case Abandon => w.(consumer := Waiting)
  }

  function Run(shape: Shape, steps: seq<Step>): (w: World)
    requires shape.slotCount >= 2
    ensures WellFormed(shape, w)
  {
    if steps == [] then Start(shape) else Do(shape, Run(shape, steps[..|steps| - 1]), steps[|steps| - 1])
  }

  /** Fewer than `slotCount` claims were made past claim `n`. */
  predicate InTime(shape: Shape, w: World, n: nat) { |w.values| <= n + shape.slotCount }

  ghost predicate Inv(shape: Shape, w: World) {
    && WellFormed(shape, w)
    && w.nextIndex == |w.values| % TURN
    && (match w.producer
        case Quiet => w.newest == if |w.values| == 0 then None else Some(|w.values| - 1)
        case Writing(claim, written) =>
          && claim == |w.values| - 1
          && w.newest == (if claim == 0 then None else Some(claim - 1))
          && w.slots[SlotOf(claim, shape.slotCount)][..written] == w.values[claim][..written])
    && (w.published.Some? ==> w.published.value == SlotOf(w.newest.value, shape.slotCount))
    && (w.newest.Some? ==>
          forall n :: 0 <= n <= w.newest.value && InTime(shape, w, n)
                      ==> w.slots[SlotOf(n, shape.slotCount)] == w.values[n])
    && (w.consumer.Reading? ==>
          && w.newest.Some? && w.consumer.claim <= w.newest.value
          && w.consumer.slot == SlotOf(w.consumer.claim, shape.slotCount)
          && (InTime(shape, w, w.consumer.claim) ==> w.consumer.got <= w.values[w.consumer.claim]))
  }

  lemma {:induction false} ClaimInv(shape: Shape, w: World, value: seq<Byte>)
    requires Inv(shape, w)
    ensures Inv(shape, Do(shape, w, Claim(value)))
  {
    if w.producer.Quiet? && |value| == shape.width {
      var w' := Do(shape, w, Claim(value));
      assert forall n :: 0 <= n < |w.values| ==> w'.values[n] == w.values[n];
      assert (|w.values| + 1) % TURN == (w.nextIndex + 1) % TURN;
    }
  }

  lemma {:induction false} WriteByteInv(shape: Shape, w: World)
    requires Inv(shape, w) && SlotsDistinct(shape.slotCount, |w.values|)
    ensures Inv(shape, Do(shape, w, WriteByte))
  {
    if w.producer.Writing? && w.producer.written < shape.width {
      var w', claim, i := Do(shape, w, WriteByte), w.producer.claim, w.producer.written;
      var slot, value := SlotOf(claim, shape.slotCount), w.values[claim];
      assert w'.slots[slot][..i + 1] == value[..i + 1] by {
        assert value[..i + 1] == value[..i] + [value[i]];
      }
      if w.newest.Some? {
        forall n | 0 <= n <= w.newest.value && InTime(shape, w', n)
          ensures w'.slots[SlotOf(n, shape.slotCount)] == w'.values[n]
        {
          assert n < claim < n + shape.slotCount && SlotOf(n, shape.slotCount) != slot;
        }
      }
    }
  }

  lemma {:induction false} PublishInv(shape: Shape, w: World)
    requires Inv(shape, w)
    ensures Inv(shape, Do(shape, w, Publish))
  {
    if w.producer.Writing? && w.producer.written == shape.width {
      var slot, claim := SlotOf(w.producer.claim, shape.slotCount), w.producer.claim;
      assert w.slots[slot][..shape.width] == w.slots[slot] && w.values[claim][..shape.width] == w.values[claim];
    }
  }

  lemma {:induction false} ReadByteInv(shape: Shape, w: World)
    requires Inv(shape, w)
    ensures Inv(shape, Do(shape, w, ReadByte))
  {
    if w.consumer.Reading? && |w.consumer.got| < shape.width {
      var i := |w.consumer.got|;
      var got := w.consumer.got + [w.slots[w.consumer.slot][i]];
      if InTime(shape, w, w.consumer.claim) {
        var value := w.values[w.consumer.claim];
        assert w.slots[w.consumer.slot] == value;
        assert w.consumer.got + [value[i]] == value[..i + 1];
      }
      GotMore(shape, w, got);
    }
  }

  lemma {:induction false} GotMore(shape: Shape, w: World, got: seq<Byte>)
    requires Inv(shape, w) && w.consumer.Reading? && |got| <= shape.width
    requires InTime(shape, w, w.consumer.claim) ==> got <= w.values[w.consumer.claim]
    ensures Inv(shape, w.(consumer := w.consumer.(got := got)))
  {
  }

  lemma {:induction false} StepInv(shape: Shape, w: World, step: Step)
    requires Inv(shape, w) && SlotsDistinct(shape.slotCount, |w.values|)
    ensures Inv(shape, Do(shape, w, step)) && |Do(shape, w, step).values| >= |w.values|
  {
    match step
    case Claim(value) => ClaimInv(shape, w, value);
    case WriteByte => WriteByteInv(shape, w);
    case Publish => PublishInv(shape, w);
    case ReadByte => ReadByteInv(shape, w);
    case _ => ReaderInv(shape, w, step);
  }

  lemma {:induction false} ReaderInv(shape: Shape, w: World, step: Step)
    requires Inv(shape, w) && (step.Peek? || step.Release? || step.Abandon?)
    ensures Inv(shape, Do(shape, w, step)) && |Do(shape, w, step).values| == |w.values|
  {
  }

  lemma {:induction false} RunInv(shape: Shape, steps: seq<Step>)
    requires shape.slotCount >= 2 && Unbroken(shape.slotCount, |Run(shape, steps).values|)
    ensures Inv(shape, Run(shape, steps))
  {
    if steps != [] {
      var init := steps[..|steps| - 1];
      ValuesGrow(shape, Run(shape, init), steps[|steps| - 1]);
      RunInv(shape, init);
      DistinctIff(shape.slotCount, |Run(shape, init).values|);
      StepInv(shape, Run(shape, init), steps[|steps| - 1]);
    }
  }

  lemma {:induction false} ValuesGrow(shape: Shape, w: World, step: Step)
    requires WellFormed(shape, w)
    ensures |w.values| <= |Do(shape, w, step).values|
  {
  }

  /** The slot being written is not the published one. */
  predicate Separate(shape: Shape, w: World)
    requires shape.slotCount >= 2
  {
    w.producer.Writing? && w.published.Some? ==> w.published.value != SlotOf(w.producer.claim, shape.slotCount)
  }

  /** What the latch promises in a state: the slots are separate, a reader in time has read a prefix of
      the value it peeked, and its release, at any moment, drops that value or nothing. */
  ghost predicate Safe(shape: Shape, w: World)
    requires WellFormed(shape, w)
  {
    && Separate(shape, w)
    && (w.consumer.Reading? ==> w.consumer.claim < |w.values|)
    && (w.consumer.Reading? && InTime(shape, w, w.consumer.claim) ==>
          && w.consumer.got <= w.values[w.consumer.claim]
          && (|w.consumer.got| == shape.width ==> w.consumer.got == w.values[w.consumer.claim])
          && Do(shape, w, Release).published == if w.newest == Some(w.consumer.claim) then None else w.published)
  }

  /** Latch safety over every interleaving and for any slot count, until the claim counter wraps; past
      that, for the slot counts that divide 2^32. */
  lemma {:induction false} LatchSafety(shape: Shape, steps: seq<Step>)
    requires shape.slotCount >= 2 && Unbroken(shape.slotCount, |Run(shape, steps).values|)
    ensures Safe(shape, Run(shape, steps))
  {
    RunInv(shape, steps);
    var w := Run(shape, steps);
    DistinctIff(shape.slotCount, |w.values|);
    SafeNow(shape, w);
  }

  lemma {:induction false} SafeNow(shape: Shape, w: World)
    requires Inv(shape, w) && SlotsDistinct(shape.slotCount, |w.values|)
    ensures Safe(shape, w)
  {
  }

  // ---- the code ----

  /** The latch and, as a ghost, the protocol around it: each call is one step of the protocol. */
  class Latch {
    const slotCount: nat
    var published: Option<nat>
    var nextIndex: nat
    ghost const width: nat
    ghost var world: World

    ghost function Layout(): Shape { Shape(slotCount, width) }

    ghost predicate Valid() reads this {
      && slotCount >= 2 && WellFormed(Layout(), world)
      && published == world.published && nextIndex == world.nextIndex == |world.values| % TURN
    }

    constructor (slotCount: nat, ghost width: nat)
      requires slotCount >= 2
      ensures Valid() && this.slotCount == slotCount && this.width == width && world == Start(Layout())
    {
      this.slotCount, this.width := slotCount, width;
      published, nextIndex, world := None, 0, Start(Shape(slotCount, width));
    }

    method Claim(ghost value: seq<Byte>) returns (slot: nat)
      requires Valid() && world.producer.Quiet? && |value| == width
      modifies this
      ensures Valid() && world == Do(Layout(), old(world), Step.Claim(value))
      ensures world.producer.Writing? && slot == SlotOf(world.producer.claim, slotCount)
    {
      slot := nextIndex % slotCount;
      nextIndex := (nextIndex + 1) % TURN;
      NextIndex(|world.values|);
      world := Do(Layout(), world, Step.Claim(value));
    }

    /** The producer publishes the slot it claimed, written to the end. */
    method Publish(slot: nat)
      requires Valid() && world.producer.Writing? && world.producer.written == width
      requires slot == SlotOf(world.producer.claim, slotCount)
      modifies this
      ensures Valid() && world == Do(Layout(), old(world), Step.Publish) && published == Some(slot)
    {
      published := Some(slot);
      world := Do(Layout(), world, Step.Publish);
    }

    /** A second peek forgets the first. */
    method Peek() returns (slot: Option<nat>)
      requires Valid()
      modifies this`world
      ensures Valid() && world == Do(Layout(), Do(Layout(), old(world), Step.Abandon), Step.Peek) && slot == published
      ensures slot.Some? ==> world.consumer == Reading(slot.value, world.newest.value, [])
    {
      slot := published;
      world := Do(Layout(), Do(Layout(), world, Step.Abandon), Step.Peek);
    }

    /** The consumer releases the slot it peeked, read to the end or not. */
    method Release(expected: nat) returns (released: bool)
      requires Valid() && world.consumer.Reading? && world.consumer.slot == expected
      modifies this
      ensures Valid() && world == Do(Layout(), old(world), Step.Release)
      ensures released == (old(published) == Some(expected))
    {
      released := published == Some(expected);
      if released {
        published := None;
      }
      world := Do(Layout(), world, Step.Release);
    }
  }

  // ---- runs that break it ----

  /** One value claimed, written and published. */
  function Round(value: Byte): seq<Step> { [Claim([value]), WriteByte, Publish] }

  function Rounds(n: nat): seq<Step> {
    if n == 0 then [] else Rounds(n - 1) + Round(0)
  }

  /** `n` values published, all of them zero, and the consumer as it was. */
  ghost predicate Zeroed(shape: Shape, w: World, n: nat, consumer: Consumer) {
    shape.slotCount >= 2 && shape.width == 1 && w == ZeroWorld(shape.slotCount, n, consumer)
  }

  function ZeroWorld(slotCount: nat, n: nat, consumer: Consumer): World
    requires slotCount >= 2
  {
    World(if n == 0 then None else Some(SlotOf(n - 1, slotCount)), n % TURN, Repeat(slotCount, [0]), Quiet, consumer,
          Repeat(n, [0]), if n == 0 then None else Some(n - 1))
  }

  lemma {:induction false} RunSnoc(shape: Shape, steps: seq<Step>, step: Step)
    requires shape.slotCount >= 2
    ensures Run(shape, steps + [step]) == Do(shape, Run(shape, steps), step)
  {
    assert (steps + [step])[..|steps|] == steps;
  }

  lemma {:induction false} RunRound(shape: Shape, steps: seq<Step>, value: Byte)
    requires shape.slotCount >= 2
    ensures Run(shape, steps + Round(value))
            == Do(shape, Do(shape, Do(shape, Run(shape, steps), Claim([value])), WriteByte), Publish)
  {
    RunSnoc(shape, steps, Claim([value]));
    RunSnoc(shape, steps + [Claim([value])], WriteByte);
    RunSnoc(shape, steps + [Claim([value])] + [WriteByte], Publish);
    assert steps + Round(value) == steps + [Claim([value])] + [WriteByte] + [Publish];
  }

  lemma {:induction false} ZeroRound(shape: Shape, w: World, n: nat)
    requires WellFormed(shape, w) && Zeroed(shape, w, n, w.consumer)
    ensures Zeroed(shape, Do(shape, Do(shape, Do(shape, w, Claim([0])), WriteByte), Publish), n + 1, w.consumer)
  {
    var one := Do(shape, w, Claim([0]));
    assert one.values == Repeat(n + 1, [0]);
    SameWritten(w.slots, SlotOf(n, shape.slotCount));
    assert Do(shape, one, WriteByte) == one.(producer := Writing(n, 1));
    NextIndex(n);
  }

  lemma {:induction false} SameWritten(slots: seq<seq<Byte>>, slot: nat)
    requires slot < |slots| && slots[slot] == [0]
    ensures slots[slot := slots[slot][0 := 0]] == slots
  {
    assert [0][0 := 0] == [0];
  }

  lemma {:induction false} NextIndex(n: nat)
    ensures (n % TURN + 1) % TURN == (n + 1) % TURN
  {
  }

  ghost predicate ZeroedRun(shape: Shape, steps: seq<Step>, n: nat, consumer: Consumer) {
    shape.slotCount >= 2 && Zeroed(shape, Run(shape, steps), n, consumer)
  }

  lemma {:induction false} ZeroRounds(shape: Shape, before: seq<Step>, n: nat, m: nat, consumer: Consumer)
    requires ZeroedRun(shape, before, n, consumer)
    ensures ZeroedRun(shape, before + Rounds(m), n + m, consumer)
  {
    if m == 0 {
      NoRounds(shape, before, n, consumer);
    } else {
      ZeroRounds(shape, before, n, m - 1, consumer);
      LastRound(shape, before, n, m, consumer);
    }
  }

  lemma {:induction false} NoRounds(shape: Shape, before: seq<Step>, n: nat, consumer: Consumer)
    requires ZeroedRun(shape, before, n, consumer)
    ensures ZeroedRun(shape, before + Rounds(0), n + 0, consumer)
  {
    assert before + Rounds(0) == before;
  }

  lemma {:induction false} LastRound(shape: Shape, before: seq<Step>, n: nat, m: nat, consumer: Consumer)
    requires m > 0 && ZeroedRun(shape, before + Rounds(m - 1), n + (m - 1), consumer)
    ensures ZeroedRun(shape, before + Rounds(m), n + m, consumer)
  {
    OneMoreRound(shape, before + Rounds(m - 1), n + (m - 1), consumer);
    RoundsMore(before, m);
  }

  lemma {:induction false} RoundsMore(before: seq<Step>, m: nat)
    requires m > 0
    ensures before + Rounds(m) == (before + Rounds(m - 1)) + Round(0)
  {
    Regroup(before, Rounds(m - 1), Round(0));
  }

  lemma {:induction false} OneMoreRound(shape: Shape, steps: seq<Step>, n: nat, consumer: Consumer)
    requires ZeroedRun(shape, steps, n, consumer)
    ensures ZeroedRun(shape, steps + Round(0), n + 1, consumer)
  {
    RunRound(shape, steps, 0);
    ZeroRound(shape, Run(shape, steps), n);
  }

  /** When claims `n` and `m` share a slot, a reader that peeked claim `n` can read claim `m`'s value. */
  lemma {:induction false} TornRead(shape: Shape, n: nat, m: nat) returns (steps: seq<Step>)
    requires shape.slotCount >= 2 && shape.width == 1
    requires n < m && SlotOf(n, shape.slotCount) == SlotOf(m, shape.slotCount)
    ensures var w := Run(shape, steps);
      && |w.values| == m + 1 && w.consumer == Reading(SlotOf(n, shape.slotCount), n, [1])
      && w.values[n] == [0]
  {
    var peeked := Peeked(shape, n);
    ZeroRounds(shape, peeked, n + 1, m - n - 1, Reading(SlotOf(n, shape.slotCount), n, []));
    steps := TornTail(shape, peeked + Rounds(m - n - 1), n, m);
  }

  /** A run that has just peeked claim `n`. */
  lemma {:induction false} Peeked(shape: Shape, n: nat) returns (steps: seq<Step>)
    requires shape.slotCount >= 2 && shape.width == 1
    ensures Zeroed(shape, Run(shape, steps), n + 1, Reading(SlotOf(n, shape.slotCount), n, []))
  {
    assert Repeat(1, 0 as Byte) == [0];
    assert Zeroed(shape, Run(shape, []), 0, Waiting);
    ZeroRounds(shape, [], 0, n + 1, Waiting);
    steps := [] + Rounds(n + 1) + [Peek];
    RunSnoc(shape, [] + Rounds(n + 1), Peek);
  }

  lemma {:induction false} TornTail(shape: Shape, before: seq<Step>, n: nat, m: nat) returns (steps: seq<Step>)
    requires shape.slotCount >= 2 && n < m && SlotOf(n, shape.slotCount) == SlotOf(m, shape.slotCount)
    requires Zeroed(shape, Run(shape, before), m, Reading(SlotOf(n, shape.slotCount), n, []))
    ensures var w := Run(shape, steps);
      && |w.values| == m + 1 && w.consumer == Reading(SlotOf(n, shape.slotCount), n, [1])
      && w.values[n] == [0]
  {
    RunSnoc(shape, before, Claim([1]));
    RunSnoc(shape, before + [Claim([1])], WriteByte);
    steps := before + [Claim([1])] + [WriteByte] + [ReadByte];
    RunSnoc(shape, before + [Claim([1])] + [WriteByte], ReadByte);
    TornSteps(shape, Run(shape, before), n, m);
  }

  lemma {:induction false} TornSteps(shape: Shape, w: World, n: nat, m: nat)
    requires WellFormed(shape, w) && n < m && SlotOf(n, shape.slotCount) == SlotOf(m, shape.slotCount)
    requires Zeroed(shape, w, m, Reading(SlotOf(n, shape.slotCount), n, []))
    ensures var r := Do(shape, Do(shape, Do(shape, w, Claim([1])), WriteByte), ReadByte);
      && |r.values| == m + 1 && r.consumer == Reading(SlotOf(n, shape.slotCount), n, [1]) && r.values[n] == [0]
  {
  }

  /** Every run of at most `claims` claims is safe. */
  ghost predicate SafeFor(slotCount: nat, claims: nat)
    requires slotCount >= 2
  {
    forall width: nat, steps :: |Run(Shape(slotCount, width), steps).values| <= claims
      ==> Safe(Shape(slotCount, width), Run(Shape(slotCount, width), steps))
  }

  /** The latch is safe for runs of a given number of claims exactly when the counter does not wrap in
      them or the slot count divides 2^32: one claim past the wrap, some reader in time reads a value
      that was never published to it. */
  lemma {:induction false} SafeIff(slotCount: nat, claims: nat)
    requires slotCount >= 2
    ensures SafeFor(slotCount, claims) <==> Unbroken(slotCount, claims)
  {
    if Unbroken(slotCount, claims) {
      forall width: nat, steps | |Run(Shape(slotCount, width), steps).values| <= claims
        ensures Safe(Shape(slotCount, width), Run(Shape(slotCount, width), steps))
      {
        LatchSafety(Shape(slotCount, width), steps);
      }
    } else {
      var n, m := CollidesAtWrap(slotCount);
      var steps := TornRead(Shape(slotCount, 1), n, m);
      TornIsUnsafe(Shape(slotCount, 1), Run(Shape(slotCount, 1), steps), n, m);
    }
  }

  lemma {:induction false} TornIsUnsafe(shape: Shape, w: World, n: nat, m: nat)
    requires WellFormed(shape, w) && n < m < n + shape.slotCount && |w.values| == m + 1 && w.values[n] == [0]
    requires w.consumer == Reading(SlotOf(n, shape.slotCount), n, [1])
    ensures !Safe(shape, w)
  {
    assert w.consumer.got[0] != w.values[n][0];
  }

  /** The bound on a reader is tight: one claim later than in time, and the value may be torn away. */
  lemma {:induction false} OneClaimTooLate(slotCount: nat, n: nat) returns (steps: seq<Step>)
    requires slotCount >= 2 && Unbroken(slotCount, n + slotCount + 1)
    ensures var shape := Shape(slotCount, 1);
      var w := Run(shape, steps);
      && |w.values| == n + slotCount + 1 && w.consumer.Reading? && w.consumer.claim == n
      && w.consumer.got == [1] && w.values[n] == [0]
  {
    NextRoundOverwrites(slotCount, n);
    steps := TornRead(Shape(slotCount, 1), n, n + slotCount);
  }

  lemma {:induction false} NextRoundOverwrites(slotCount: nat, n: nat)
    requires slotCount >= 2 && Unbroken(slotCount, n + slotCount + 1)
    ensures SlotOf(n + slotCount, slotCount) == SlotOf(n, slotCount)
  {
    NextLap(n, slotCount);
    if n + slotCount < TURN {
      FirstTurnSlot(n, slotCount);
      FirstTurnSlot(n + slotCount, slotCount);
    } else {
      SlotIsMod(n, slotCount);
      SlotIsMod(n + slotCount, slotCount);
    }
  }

  lemma {:induction false} FirstTurnSlot(n: nat, slotCount: nat)
    requires n < TURN && slotCount >= 1
    ensures SlotOf(n, slotCount) == n % slotCount
  {
  }

  lemma {:induction false} NextLap(n: nat, k: nat)
    requires k >= 2
    ensures (n + k) % k == n % k
  {
    DivMod(n, k);
    assert n + k == (n / k + 1) * k + n % k;
    ModIs(n + k, n / k + 1, n % k, k);
  }

  // ---- the writer's slot, past the wrap ----

  /** What every run keeps, whatever the slot count: claims are published in turn. */
  ghost predicate InTurn(shape: Shape, w: World) {
    && WellFormed(shape, w)
    && (match w.producer
        case Quiet => w.newest == if |w.values| == 0 then None else Some(|w.values| - 1)
        case Writing(claim, _) => claim == |w.values| - 1 && w.newest == if claim == 0 then None else Some(claim - 1))
    && (w.published.Some? ==> w.published.value == SlotOf(w.newest.value, shape.slotCount))
  }

  lemma {:induction false} StepInTurn(shape: Shape, w: World, step: Step)
    requires InTurn(shape, w)
    ensures InTurn(shape, Do(shape, w, step))
  {
  }

  lemma {:induction false} RunInTurn(shape: Shape, steps: seq<Step>)
    requires shape.slotCount >= 2
    ensures InTurn(shape, Run(shape, steps))
  {
    if steps != [] {
      RunInTurn(shape, steps[..|steps| - 1]);
      StepInTurn(shape, Run(shape, steps[..|steps| - 1]), steps[|steps| - 1]);
    }
  }

  /** Every run of at most `claims` claims keeps the slots separate. */
  ghost predicate SeparateFor(slotCount: nat, claims: nat)
    requires slotCount >= 2
  {
    forall width: nat, steps :: |Run(Shape(slotCount, width), steps).values| <= claims
      ==> Separate(Shape(slotCount, width), Run(Shape(slotCount, width), steps))
  }

  /** The slot being written is never the published one, in runs of a given number of claims, exactly
      when the counter does not wrap in them or the slot count does not divide 2^32 - 1. */
  lemma {:induction false} SeparateIff(slotCount: nat, claims: nat)
    requires slotCount >= 2
    ensures SeparateFor(slotCount, claims) <==> claims <= TURN || (TURN - 1) % slotCount != 0
  {
    if claims <= TURN || (TURN - 1) % slotCount != 0 {
      forall width: nat, steps | |Run(Shape(slotCount, width), steps).values| <= claims
        ensures Separate(Shape(slotCount, width), Run(Shape(slotCount, width), steps))
      {
        RunInTurn(Shape(slotCount, width), steps);
        SeparateNow(Shape(slotCount, width), Run(Shape(slotCount, width), steps), claims);
      }
    } else {
      var steps := WriteOverPublished(Shape(slotCount, 1), TURN);
    }
  }

  lemma {:induction false} SeparateNow(shape: Shape, w: World, claims: nat)
    requires InTurn(shape, w) && |w.values| <= claims && (claims <= TURN || (TURN - 1) % shape.slotCount != 0)
    ensures Separate(shape, w)
  {
    if w.producer.Writing? && w.producer.claim > 0 { NextSlot(w.producer.claim - 1, shape.slotCount); }
  }

  lemma {:induction false} WriteOverPublished(shape: Shape, n: nat) returns (steps: seq<Step>)
    requires shape.slotCount >= 2 && shape.width == 1 && n == TURN && (TURN - 1) % shape.slotCount == 0
    ensures |Run(shape, steps).values| == n + 1 && !Separate(shape, Run(shape, steps))
  {
    assert Repeat(1, 0 as Byte) == [0];
    assert Zeroed(shape, Run(shape, []), 0, Waiting);
    ZeroRounds(shape, [], 0, n, Waiting);
    steps := [] + Rounds(n) + [Claim([0])];
    RunSnoc(shape, [] + Rounds(n), Claim([0]));
    WrapSlots(shape.slotCount, n);
  }

  lemma {:induction false} WrapSlots(slotCount: nat, n: nat)
    requires slotCount >= 2 && n == TURN && (TURN - 1) % slotCount == 0
    ensures SlotOf(n - 1, slotCount) == 0 == SlotOf(n, slotCount)
  {
    assert (n - 1) % TURN == TURN - 1 && n % TURN == 0;
  }

  // ---- the latest value ----

  /** A reader that peeks after a publish, with none under way, starts on the value just published, whole
      and in its slot. */
  lemma {:induction false} NewestSeen(shape: Shape, steps: seq<Step>)
    requires shape.slotCount >= 2 && Unbroken(shape.slotCount, |Run(shape, steps).values|)
    requires ReadyToPublish(shape, Run(shape, steps)) && Run(shape, steps).consumer.Waiting?
    ensures var w := Run(shape, steps + [Publish] + [Peek]);
      w.values == Run(shape, steps).values && SeesNewest(shape, w)
  {
    RunInv(shape, steps);
    RunSnoc(shape, steps, Publish);
    RunSnoc(shape, steps + [Publish], Peek);
    PublishThenPeek(shape, Run(shape, steps));
  }

  /** A value is written whole and not yet published. */
  ghost predicate ReadyToPublish(shape: Shape, w: World) { w.producer.Writing? && w.producer.written == shape.width }

  ghost predicate SeesNewest(shape: Shape, w: World) {
    && shape.slotCount >= 2 && w.values != [] && |w.slots| == shape.slotCount
    && var n := |w.values| - 1;
       w.consumer == Reading(SlotOf(n, shape.slotCount), n, []) && w.slots[SlotOf(n, shape.slotCount)] == w.values[n]
  }

  lemma {:induction false} PublishThenPeek(shape: Shape, w: World)
    requires Inv(shape, w) && ReadyToPublish(shape, w) && w.consumer.Waiting?
    ensures var r := Do(shape, Do(shape, w, Publish), Peek); r.values == w.values && SeesNewest(shape, r)
  {
    var slot := SlotOf(w.producer.claim, shape.slotCount);
    assert w.slots[slot][..shape.width] == w.slots[slot];
    assert w.values[w.producer.claim][..shape.width] == w.values[w.producer.claim];
  }
}
