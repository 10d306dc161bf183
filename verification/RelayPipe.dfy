/** One pipe of the central as the firmware runs it: fields updated by events, by the keepalive and by
    each poll (src/esb_hid_relay_pointer.c:43-216, src/esb_hid_relay_central.c:69-113,
    src/esb_link_central.c:123-334). */
module RelayPipe {
  import opened Common
  import opened Layout
  import opened MotionTotal
  import opened RelayReports
  import opened RelayCentral
  import Bitmap

  /** The input codes with a button bit: touch has the first, `count` codes from `first` have one each. */
  datatype Codes = Codes(touch: nat, first: nat, count: nat) {
    /** The flags are one byte. */
    predicate Valid() { count <= 8 }

    function BitOf(code: nat): (bit: Option<nat>)
      ensures Valid() && bit.Some? ==> bit.value < 8
    {
      if code == touch then Some(0)
      else if code < first || code >= first + count then None
      else Some(code - first)
    }
  }

  /** The pointer's running totals and held buttons, and what was last written of them. */
  class Sums {
    const codes: Codes
    const sums: array<int>
    var buttons: bv8
    var changed: bool
    var refresh: bool
    var written: Body

    ghost predicate Valid() reads this { codes.Valid() && sums.Length == AXES && |written.totals| == AXES }

    ghost function Value(): (p: Pointer)
      requires Valid()
      reads this, sums
      ensures p.Shaped()
    {
      Pointer(sums[..], buttons as int as Byte, changed, refresh, written)
    }

    constructor (codes: Codes)
      requires codes.Valid()
      ensures Valid() && fresh(sums) && this.codes == codes
      ensures Value() == Pointer([0, 0, 0, 0], 0, false, false, Body(0, [0, 0, 0, 0]))
    {
      this.codes := codes;
      sums := new int[AXES](i => 0);
      buttons, changed, refresh, written := 0, false, false, Body(0, [0, 0, 0, 0]);
    }

    /** Other relative codes than the four axes are ignored. */
    method AddMotion(axis: nat, value: int)
      requires Valid()
      modifies sums
      ensures Valid()
      ensures Value() == if axis < AXES
                         then old(Value()).(sums := old(Value()).sums[axis := TotalAdd(old(Value()).sums[axis], value)])
                         else old(Value())
    {
      if axis < AXES { sums[axis] := TotalAdd(sums[axis], value); }
    }

    method SetButton(bit: nat, pressed: bool) returns (was: bool)
      requires Valid() && bit < 8
      modifies this`buttons
      ensures Valid() && buttons == Bitmap.Written(old(buttons), bit, pressed)
      ensures was == (old(buttons) & Bitmap.Bit(bit) != 0)
      ensures Value() == old(Value()).(buttons := buttons as int as Byte)
    {
      was := buttons & Bitmap.Bit(bit) != 0;
      buttons := Bitmap.Written(buttons, bit, pressed);
    }

    /** A button counts as changed only when its bit flips; codes without a bit are ignored. */
    method AddButton(code: nat, value: int)
      requires Valid()
      modifies this`buttons, this`changed
      ensures Valid()
      ensures match codes.BitOf(code)
              case None => buttons == old(buttons)
              case Some(bit) => buttons == Bitmap.Written(old(buttons), bit, value != 0)
      ensures Value() == if buttons == old(buttons) then old(Value())
                         else old(Value()).(buttons := buttons as int as Byte, changed := true)
    {
      var bit := codes.BitOf(code);
      if bit.None? { return; }
      Press(bit.value, value != 0);
    }

    method Press(bit: nat, pressed: bool)
      requires Valid() && bit < 8
      modifies this`buttons, this`changed
      ensures Valid() && buttons == Bitmap.Written(old(buttons), bit, pressed)
      ensures Value() == if buttons == old(buttons) then old(Value())
                         else old(Value()).(buttons := buttons as int as Byte, changed := true)
    {
      FlipsOnlyIf(buttons, bit, pressed);
      var was := SetButton(bit, pressed);
      if was != pressed { changed := true; }
    }

    method StampTotals() returns (totals: seq<I16>)
      requires Valid()
      ensures totals == Value().Totals()
    {
      totals := [Low16(sums[0]), Low16(sums[1]), Low16(sums[2]), Low16(sums[3])];
    }

    method MotionPending() returns (pending: bool)
      requires Valid()
      ensures pending == Value().MotionPending()
    {
      var totals := StampTotals();
      pending := totals != written.totals;
    }

    method Stamp(r: Report) returns (s: Report)
      requires Valid()
      ensures s == Value().Stamp(r)
    {
      if !r.Mouse? { return r; }
      var totals := StampTotals();
      s := Mouse(Body(r.body.buttons, totals));
    }

    method Take(room: nat, changesQueued: bool) returns (rs: seq<Report>)
      requires Valid()
      ensures rs == Value().Take(room, changesQueued)
    {
      if room < POINTER_LENGTH { return []; }
      var totals := StampTotals();
      var body := Body(if changesQueued then written.buttons else buttons as int as Byte, totals);
      if body == written && !refresh { return []; }
      rs := [Mouse(body)];
    }

    method Sent(body: Body)
      requires Valid() && |body.totals| == AXES
      modifies this`written, this`refresh
      ensures Valid() && Value() == old(Value()).(written := body, refresh := false)
    {
      written, refresh := body, false;
    }
  }

  /** The first of the button codes has bit 0, as touch has, and each of the `count` the next; no other
      code has one, and no two of the buttons share one. */
  lemma {:induction false} ButtonCodes(codes: Codes, code: nat, other: nat)
    ensures codes.BitOf(codes.touch) == Some(0)
    ensures code < codes.count && codes.first + code != codes.touch ==> codes.BitOf(codes.first + code) == Some(code)
    ensures codes.BitOf(code).Some? <==> code == codes.touch || codes.first <= code < codes.first + codes.count
    ensures codes.touch !in {code, other} && codes.BitOf(code).Some? && codes.BitOf(code) == codes.BitOf(other) ==>
              code == other
  {
  }

  /** Writing a bit changes the byte exactly when it changes the bit. */
  lemma {:induction false} FlipsOnlyIf(b: bv8, k: nat, on: bool)
    requires k < 8
    ensures Bitmap.Written(b, k, on) == b <==> (b & Bitmap.Bit(k) != 0) == on
  {
    Bitmap.BitLaws(b, k);
    assert (Bitmap.Written(b, k, on) & Bitmap.Bit(k) != 0) == on;
    OneBit(b, Bitmap.Bit(k));
  }

  lemma {:induction false} OneBit(b: bv8, x: bv8)
    ensures x & (x - 1) == 0 && b & x != 0 ==> b | x == b
    ensures b & x == 0 ==> b & !x == b
  {
  }

  /** The reply queue, the latches and the staged counter of one pipe. */
  class Pipe {
    const relay: bool
    const depth: nat
    const pointer: Sums
    const control: array<Option<seq<Byte>>>
    var queue: seq<Report>
    var staged: nat
    var idle: Option<Idle>
    var keyboard: seq<Byte>
    var consumer: seq<Byte>
    /** Reports put whose count is still to come: between the two halves of staging. */
    ghost var uncounted: nat

    ghost predicate Valid() reads this, pointer { pointer.Valid() }

    ghost function Footprint(): set<object> { {this, control, pointer, pointer.sums} }

    ghost function Value(): (c: Central)
      requires Valid()
      reads this, control, pointer, pointer.sums
      ensures c.pointer.Shaped() && c.relay == relay && c.depth == depth
    {
      Central(relay, depth, queue, staged, uncounted, idle, control[..], keyboard, consumer, pointer.Value())
    }

    constructor (relay: bool, depth: nat, keyboard: seq<Byte>, consumer: seq<Byte>, codes: Codes)
      requires codes.Valid()
      ensures Valid() && fresh(pointer) && fresh(control) && fresh(pointer.sums)
      ensures Value() == Central(relay, depth, [], 0, 0, None, [None, None], keyboard, consumer,
                                 Pointer([0, 0, 0, 0], 0, false, false, Body(0, [0, 0, 0, 0])))
    {
      this.relay, this.depth := relay, depth;
      pointer := new Sums(codes);
      control := new Option<seq<Byte>>[2](i => None);
      queue, staged, idle, this.keyboard, this.consumer := [], 0, None, keyboard, consumer;
      uncounted := 0;
    }

    // ---- producers ----

    method PutReply(report: Report) returns (ok: bool)
      requires Valid()
      modifies this`queue, this`uncounted
      ensures Valid() && ok == QueueHasRoom(old(Value()))
      ensures Value() == Put(old(Value()), if ok then [report] else [])
    {
      ok := |queue| < depth;
      if ok { queue, uncounted := queue + [report], uncounted + 1; } else { assert queue + [] == queue; }
    }

    method CountReply()
      requires Valid() && uncounted > 0
      modifies this`staged, this`uncounted
      ensures Valid() && Value() == Do(old(Value()), Increment)
    {
      staged, uncounted := (staged + 1) % COUNTER_TURN, uncounted - 1;
    }

    /** ZMK's report changed: it is staged whole, and a full queue drops it. */
    method KeycodeChanged(report: Report) returns (ok: bool)
      requires Valid() && (report.Keyboard? || report.Consumer?)
      modifies this
      ensures Valid() && ok == QueueHasRoom(old(Value()))
      ensures var put := Do(old(Value()), Change(report)); Value() == if ok then Do(put, Increment) else put
    {
      if report.Keyboard? { keyboard := report.rest; } else { consumer := report.rest; }
      ok := PutReply(report);
      if ok { CountReply(); }
    }

    /** One button report per sync, when a button changed. */
    method SyncEvent() returns (ok: bool)
      requires Valid()
      modifies this, pointer
      ensures Valid() && ok == (Stages(old(Value()), Sync) != [])
      ensures var put := Do(old(Value()), Sync); Value() == if ok then Do(put, Increment) else put
    {
      ok := false;
      SyncPuts(Value());
      if pointer.changed {
        pointer.changed := false;
        assert Value() == old(Value()).(pointer := old(Value()).pointer.(changed := false));
        ok := PutReply(Mouse(Body(pointer.buttons as int as Byte, [0, 0, 0, 0])));
        if ok { CountReply(); }
      }
    }

    /** The periodic refresh: a snapshot of ZMK's two reports for a relay, and a pointer report due. */
    method KeepaliveFire()
      requires Valid()
      modifies this`idle, pointer
      ensures Valid() && Value() == Do(Do(old(Value()), Latch), Refresh)
    {
      if relay { idle := Some(Idle([Keyboard(keyboard), Consumer(consumer)], staged)); }
      pointer.refresh := true;
    }

    method LatchControl(kind: nat, bytes: seq<Byte>) returns (ok: bool)
      requires Valid()
      modifies control
      ensures Valid() && ok == (kind < control.Length)
      ensures Value() == Do(old(Value()), RelayCentral.LatchControl(kind, bytes))
    {
      ok := kind < control.Length;
      if ok { control[kind] := Some(bytes); }
    }

    // ---- the poll ----

    method WritePendingControl(accepted: bool) returns (handled: bool, wrote: Option<Written>)
      requires Valid()
      modifies control
      ensures Valid() && handled == (FirstControl(old(Value())) < control.Length)
      ensures if handled then (Value(), wrote) == PollOnce(old(Value()), accepted)
              else Value() == old(Value()) && wrote == None
    {
      handled, wrote := false, None;
      var kind := 0;
      while kind < control.Length
        invariant 0 <= kind <= control.Length && FirstControlFrom(control[..], 0) == FirstControlFrom(control[..], kind)
      {
        if control[kind].Some? {
          if accepted { wrote, control[kind] := Some(Control(control[kind].value)), None; }
          return true, wrote;
        }
        kind := kind + 1;
      }
    }

    /** As many whole reports as fit, stamped; the last pointer report among them is what commits. */
    method PackQueuedReplies() returns (packed: seq<Report>, taken: nat, body: Option<Body>)
      requires Valid()
      ensures taken == Count(Value()) && packed == Packed(Value(), taken) && body == LastMouse(packed)
    {
      var pending := pointer.MotionPending();
      var room := if relay && pending then MAX_PAYLOAD - POINTER_LENGTH else MAX_PAYLOAD;
      var length := 0;
      packed, taken, body := [], 0, None;
      ghost var c := Value();
      while taken < |queue|
        invariant 0 <= taken <= |queue| && length >= 0 && (taken > 0 ==> relay)
        invariant Packing(c, room, packed, taken, length, body)
      {
        if length + Length(queue[taken]) > room { break; }
        var report := queue[taken];
        if relay { report := pointer.Stamp(report); }
        PackMore(c, room, packed, taken, length, body, report);
        packed, length, taken := packed + [report], length + Length(queue[taken]), taken + 1;
        if report.Mouse? { body := Some(report.body); }
        if !relay { return; }
      }
      PackedAll(c, room, packed, taken, length, body);
    }

    method AppendPointer(rs: seq<Report>, changesQueued: bool) returns (own: seq<Report>)
      requires Valid()
      ensures own == Append(Value(), rs, changesQueued)
    {
      own := [];
      if relay {
        var length := PayloadLength(rs);
        if length <= MAX_PAYLOAD { own := pointer.Take(MAX_PAYLOAD - length, changesQueued); }
      }
    }

    method PayloadLength(rs: seq<Report>) returns (length: nat)
      ensures length == TotalLength(rs)
    {
      length := 0;
      for i := 0 to |rs|
        invariant length == TotalLength(rs[..i])
      {
        assert rs[..i + 1][..i] == rs[..i];
        length := length + Length(rs[i]);
      }
      assert rs[..|rs|] == rs;
    }

    method WriteQueuedReplies(accepted: bool) returns (handled: bool, wrote: Option<Written>)
      requires Valid() && FirstControl(Value()) == control.Length
      modifies this`queue, pointer
      ensures Valid() && handled == (Count(old(Value())) > 0)
      ensures if handled then (Value(), wrote) == PollOnce(old(Value()), accepted)
              else Value() == old(Value()) && wrote == None
    {
      var packed, taken, body := PackQueuedReplies();
      if taken == 0 { return false, None; }
      ghost var was := Value();
      var own: seq<Report> := [];
      if body.None? || !relay { own := AppendPointer(packed, taken < |queue|); }
      QueuedCommit(was, packed, own);
      handled, wrote := true, None;
      if accepted {
        wrote := Some(Replies(packed, [], own));
        queue := queue[taken..];
        if relay && body.Some? { pointer.Sent(body.value); }
        else if own != [] { pointer.Sent(own[0].body); }
      }
    }

    /** A snapshot older than the last staged report is dropped. */
    method FreshIdleReply() returns (snapshot: seq<Report>)
      requires Valid()
      modifies this`idle
      ensures Valid() && snapshot == IdlePayload(old(Value())).snapshot
      ensures Value() == old(Value()).(idle := if IdleIsFresh(old(Value())) then old(idle) else None)
    {
      if idle.Some? && idle.value.staged != staged { idle := None; }
      snapshot := if idle.Some? then idle.value.reports else [];
    }

    method WriteIdleReply(accepted: bool) returns (wrote: Option<Written>)
      requires Valid() && FirstControl(Value()) == control.Length && Count(Value()) == 0
      modifies this`idle, pointer
      ensures Valid() && (Value(), wrote) == PollOnce(old(Value()), accepted)
    {
      ghost var was := Value();
      var snapshot := FreshIdleReply();
      var own := AppendPointer(snapshot, false);
      IdleCommit(was, own);
      wrote := None;
      if snapshot + own != [] && accepted {
        idle := None;
        if own != [] { pointer.Sent(own[0].body); }
        wrote := Some(Replies([], snapshot, own));
      }
    }

    /** One write at most: a control, else queued replies, else the idle reply. */
    method Answer(accepted: bool) returns (wrote: Option<Written>)
      requires Valid()
      modifies this, control, pointer
      ensures Valid() && (Value(), wrote) == PollOnce(old(Value()), accepted)
    {
      var handled;
      handled, wrote := WritePendingControl(accepted);
      if handled { return; }
      handled, wrote := WriteQueuedReplies(accepted);
      if handled { return; }
      wrote := WriteIdleReply(accepted);
    }
  }

  // ---- all pipes ----

  ghost predicate Apart(pipes: seq<Pipe>) {
    forall i, j :: 0 <= i < |pipes| && 0 <= j < |pipes| && i != j ==> pipes[i].Footprint() !! pipes[j].Footprint()
  }

  ghost function Footprints(pipes: seq<Pipe>): (os: set<object>)
    ensures forall i :: 0 <= i < |pipes| ==> pipes[i].Footprint() <= os
  {
    if pipes == [] then {} else Footprints(pipes[..|pipes| - 1]) + pipes[|pipes| - 1].Footprint()
  }

  ghost predicate AllValid(pipes: seq<Pipe>)
    reads Footprints(pipes)
  {
    forall i :: 0 <= i < |pipes| ==> pipes[i].Valid()
  }

  ghost function Values(pipes: seq<Pipe>): (cs: seq<Central>)
    requires AllValid(pipes)
    reads Footprints(pipes)
    ensures |cs| == |pipes| && forall i :: 0 <= i < |pipes| ==> cs[i] == pipes[i].Value()
  {
    if pipes == [] then []
    else
      var n := |pipes| - 1;
      Values(pipes[..n]) + [pipes[n].Value()]
  }

  /** A pipe that was asked takes one poll; another is as it was. */
  ghost predicate Answered(was: Central, now: Central, wrote: Option<Written>, asked: bool, accepted: bool) {
    was.pointer.Shaped() && (now, wrote) == if asked then PollOnce(was, accepted) else (was, None)
  }

  ghost predicate AllAnswered(was: seq<Central>, now: seq<Central>, wrote: seq<Option<Written>>, acked: set<nat>,
                              accepted: nat -> bool) {
    && |now| == |was| && |wrote| <= |was|
    && (forall i :: 0 <= i < |wrote| ==> Answered(was[i], now[i], wrote[i], i in acked, accepted(i)))
    && now[|wrote|..] == was[|wrote|..]
  }

  lemma {:induction false} AnsweredNext(was: seq<Central>, now: seq<Central>, wrote: seq<Option<Written>>,
                                        acked: set<nat>, accepted: nat -> bool, c: Central, w: Option<Written>)
    requires AllAnswered(was, now, wrote, acked, accepted) && |wrote| < |was|
    requires Answered(now[|wrote|], c, w, |wrote| in acked, accepted(|wrote|))
    ensures AllAnswered(was, now[|wrote| := c], wrote + [w], acked, accepted)
  {
    assert now[|wrote|..][0] == was[|wrote|..][0];
    assert now[|wrote| := c][|wrote| + 1..] == now[|wrote|..][1..] && was[|wrote|..][1..] == was[|wrote| + 1..];
  }

  method AnswerOne(pipes: seq<Pipe>, pipe: nat, asked: bool, accepted: bool) returns (wrote: Option<Written>)
    requires pipe < |pipes| && Apart(pipes) && AllValid(pipes)
    modifies pipes[pipe].Footprint()
    ensures AllValid(pipes) && Answered(old(Values(pipes))[pipe], pipes[pipe].Value(), wrote, asked, accepted)
    ensures Values(pipes) == old(Values(pipes))[pipe := pipes[pipe].Value()]
  {
    wrote := None;
    if asked { wrote := pipes[pipe].Answer(accepted); }
    forall i | 0 <= i < |pipes| && i != pipe
      ensures pipes[i].Valid() && pipes[i].Value() == old(pipes[i].Value())
    {
      assert pipes[i].Footprint() !! pipes[pipe].Footprint();
    }
  }

  /** One write at most for each pipe of a drained batch of packets that asked for an ACK. */
  method RxDone(pipes: seq<Pipe>, acked: set<nat>, accepted: nat -> bool) returns (wrote: seq<Option<Written>>)
    requires Apart(pipes) && AllValid(pipes)
    modifies Footprints(pipes)
    ensures AllValid(pipes) && |wrote| == |pipes|
    ensures AllAnswered(old(Values(pipes)), Values(pipes), wrote, acked, accepted)
  {
    wrote := [];
    for pipe := 0 to |pipes|
      invariant AllValid(pipes) && |wrote| == pipe
      invariant AllAnswered(old(Values(pipes)), Values(pipes), wrote, acked, accepted)
    {
      ghost var now := Values(pipes);
      var answer := AnswerOne(pipes, pipe, pipe in acked, accepted(pipe));
      AnsweredNext(old(Values(pipes)), now, wrote, acked, accepted, pipes[pipe].Value(), answer);
      wrote := wrote + [answer];
    }
  }

  /** `taken` reports are packed, in `length` bytes; the rest of the loop takes what `Count` says. */
  ghost predicate Packing(c: Central, room: nat, packed: seq<Report>, taken: nat, length: nat, body: Option<Body>) {
    && c.pointer.Shaped() && taken <= |c.queue|
    && packed == Packed(c, taken) && body == LastMouse(packed)
    && Count(c) == TakenFrom(c.relay, c.queue, room, length, taken)
  }

  lemma {:induction false} PackMore(c: Central, room: nat, packed: seq<Report>, taken: nat, length: nat,
                                    body: Option<Body>, r: Report)
    requires Packing(c, room, packed, taken, length, body) && taken < |c.queue|
    requires length + Length(c.queue[taken]) <= room
    requires r == if c.relay then c.pointer.Stamp(c.queue[taken]) else c.queue[taken]
    ensures packed + [r] == Packed(c, taken + 1)
    ensures LastMouse(packed + [r]) == if r.Mouse? then Some(r.body) else body
    ensures c.relay
            ==> Packing(c, room, packed + [r], taken + 1, length + Length(c.queue[taken]), LastMouse(packed + [r]))
    ensures !c.relay ==> Count(c) == taken + 1
  {
    PackedSnoc(c, taken, r);
    LastMouseSnoc(packed, r);
    TakenMore(c.relay, c.queue, room, length, taken);
  }

  lemma {:induction false} PackedSnoc(c: Central, taken: nat, r: Report)
    requires c.pointer.Shaped() && taken < |c.queue|
    requires r == if c.relay then c.pointer.Stamp(c.queue[taken]) else c.queue[taken]
    ensures Packed(c, taken + 1) == Packed(c, taken) + [r]
  {
  }

  lemma {:induction false} PackedAll(c: Central, room: nat, packed: seq<Report>, taken: nat, length: nat,
                                     body: Option<Body>)
    requires Packing(c, room, packed, taken, length, body)
    requires taken == |c.queue| || length + Length(c.queue[taken]) > room
    ensures Count(c) == taken
  {
  }

  lemma {:induction false} SyncPuts(c: Central)
    requires c.pointer.Shaped()
    ensures !c.pointer.changed ==> Do(c, Sync) == c && Stages(c, Sync) == []
    ensures var staged := if QueueHasRoom(c) then [Mouse(Body(c.pointer.buttons, [0, 0, 0, 0]))] else [];
      c.pointer.changed ==>
        Stages(c, Sync) == staged && Do(c, Sync) == Put(c.(pointer := c.pointer.(changed := false)), staged)
  {
    assert c.queue + [] == c.queue;
  }

  lemma {:induction false} LastMouseSnoc(rs: seq<Report>, r: Report)
    ensures LastMouse(rs + [r]) == if r.Mouse? then Some(r.body) else LastMouse(rs)
  {
    assert (rs + [r])[..|rs|] == rs;
  }

  lemma {:induction false} LastOfBoth(rs: seq<Report>, own: seq<Report>)
    requires |own| <= 1 && (own != [] ==> own[0].Mouse?)
    ensures LastMouse((rs + []) + own) == if own != [] then Some(own[0].body) else LastMouse(rs)
  {
    assert rs + [] == rs;
    if own != [] { LastMouseSnoc(rs, own[0]); assert rs + own == rs + [own[0]]; }
    else { assert rs + own == rs; }
  }

  lemma {:induction false} PackedTotals(c: Central, n: nat)
    requires c.pointer.Shaped() && c.relay && n <= |c.queue|
    ensures LastMouse(Packed(c, n)).Some? ==> |LastMouse(Packed(c, n)).value.totals| == AXES
  {
    if LastMouse(Packed(c, n)).Some? {
      var i :| 0 <= i < n && Packed(c, n)[i] == Mouse(LastMouse(Packed(c, n)).value);
      assert Packed(c, n)[i] == c.pointer.Stamp(c.queue[i]);
    }
  }

  lemma {:induction false} AppendShape(c: Central, rs: seq<Report>, changesQueued: bool)
    requires c.pointer.Shaped()
    ensures var own := Append(c, rs, changesQueued);
      |own| <= 1 && (own != [] ==> own[0].Mouse? && c.relay && |own[0].body.totals| == AXES)
  {
  }

  lemma {:induction false} QueuedIs(c: Central, packed: seq<Report>, own: seq<Report>)
    requires c.pointer.Shaped() && packed == Packed(c, Count(c))
    requires own == if LastMouse(packed).Some? && c.relay then [] else Append(c, packed, Count(c) < |c.queue|)
    ensures QueuedPayload(c) == Replies(packed, [], own)
    ensures |own| <= 1 && (own != [] ==> own[0].Mouse? && c.relay && |own[0].body.totals| == AXES)
    ensures c.relay && own != [] ==> LastMouse(packed).None?
  {
    AppendShape(c, packed, Count(c) < |c.queue|);
  }

  /** What a queued payload commits. */
  lemma {:induction false} QueuedCommit(c: Central, packed: seq<Report>, own: seq<Report>)
    requires c.pointer.Shaped() && packed == Packed(c, Count(c))
    requires own == if LastMouse(packed).Some? && c.relay then [] else Append(c, packed, Count(c) < |c.queue|)
    ensures QueuedPayload(c) == Replies(packed, [], own) && |own| <= 1 && (own != [] ==> own[0].Mouse? && c.relay)
    ensures c.relay ==> LastMouse((packed + []) + own)
                        == if LastMouse(packed).Some? then LastMouse(packed)
                          else if own != [] then Some(own[0].body) else None
    ensures c.relay && LastMouse(packed).Some? ==> |LastMouse(packed).value.totals| == AXES
    ensures own != [] ==> |own[0].body.totals| == AXES
  {
    QueuedIs(c, packed, own);
    LastOfBoth(packed, own);
    if c.relay { PackedTotals(c, Count(c)); }
  }

  lemma {:induction false} IdleCommit(c: Central, own: seq<Report>)
    requires c.pointer.Shaped() && own == IdlePayload(c).pointer
    ensures |own| <= 1 && (own != [] ==> own[0].Mouse? && |own[0].body.totals| == AXES)
    ensures c.pointer.Sent(own) == if own == [] then c.pointer else c.pointer.(written := own[0].body, refresh := false)
    ensures [] + IdlePayload(c).snapshot + own == IdlePayload(c).snapshot + own
  {
    AppendShape(c, IdlePayload(c).snapshot, false);
    CommitOne(c.pointer, IdlePayload(c).snapshot, own);
  }

  lemma {:induction false} CommitOne(p: Pointer, snapshot: seq<Report>, own: seq<Report>)
    requires |own| <= 1 && (own != [] ==> own[0].Mouse?)
    ensures p.Sent(own) == if own == [] then p else p.(written := own[0].body, refresh := false)
    ensures [] + snapshot + own == snapshot + own
  {
    assert [] + snapshot == snapshot;
    if own != [] {
      LastMouseSnoc([], own[0]);
      assert own == [] + [own[0]];
    }
  }
}
