/** Button states as the relay is written them: no change still queued is ever overtaken
    (src/esb_hid_relay_pointer.c:105-111, src/esb_hid_relay_pointer.c:154-216). */
module RelayButtons {
  import opened Common
  import opened Layout
  import opened RelayReports
  import opened RelayCentral
  import opened RelayRuns

  // ---- sequences of button states ----

  function Buttons(rs: seq<Report>): seq<Byte> {
    if rs == [] then []
    else Buttons(rs[..|rs| - 1]) + if rs[|rs| - 1].Mouse? then [rs[|rs| - 1].body.buttons] else []
  }

  function Last(s: seq<Byte>): Byte
    requires s != []
  {
    s[|s| - 1]
  }

  /** The states without their immediate repeats. */
  function Dedup(s: seq<Byte>): (d: seq<Byte>)
    ensures s != [] ==> d != [] && Last(d) == Last(s)
  {
    if s == [] then []
    else
      var d := Dedup(s[..|s| - 1]);
      if d != [] && Last(d) == Last(s) then d else d + [Last(s)]
  }

  lemma {:induction false} DedupOne(s: seq<Byte>, x: Byte)
    ensures Dedup(s + [x]) == if Dedup(s) != [] && Last(Dedup(s)) == x then Dedup(s) else Dedup(s) + [x]
  {
    assert (s + [x])[..|s|] == s;
  }

  lemma {:induction false} DedupRepeat(s: seq<Byte>)
    requires s != []
    ensures Dedup(s + [Last(s)]) == Dedup(s)
  {
    DedupOne(s, Last(s));
  }

  lemma {:induction false} DedupCongruent(a: seq<Byte>, b: seq<Byte>, s: seq<Byte>)
    requires Dedup(a) == Dedup(b)
    ensures Dedup(a + s) == Dedup(b + s)
  {
    if s == [] {
      assert a + s == a && b + s == b;
    } else {
      var t, x := s[..|s| - 1], Last(s);
      DedupCongruent(a, b, t);
      assert a + s == (a + t) + [x] && b + s == (b + t) + [x];
      DedupOne(a + t, x);
      DedupOne(b + t, x);
    }
  }

  lemma {:induction false} DedupPrefix(a: seq<Byte>, s: seq<Byte>)
    ensures Dedup(a) <= Dedup(a + s)
  {
    if s == [] {
      assert a + s == a;
    } else {
      var t, x := s[..|s| - 1], Last(s);
      DedupPrefix(a, t);
      assert a + s == (a + t) + [x];
      DedupOne(a + t, x);
    }
  }

  lemma {:induction false} ButtonsAppend(a: seq<Report>, b: seq<Report>)
    ensures Buttons(a + b) == Buttons(a) + Buttons(b)
  {
    if b == [] {
      assert a + b == a;
    } else {
      assert (a + b)[..|a + b| - 1] == a + b[..|b| - 1];
      ButtonsAppend(a, b[..|b| - 1]);
    }
  }

  lemma {:induction false} ButtonsSame(a: seq<Report>, b: seq<Report>)
    requires |a| == |b| && forall i :: 0 <= i < |a| ==> SameButTotals(a[i], b[i])
    ensures Buttons(a) == Buttons(b)
  {
    if a != [] { ButtonsSame(a[..|a| - 1], b[..|b| - 1]); }
  }

  lemma {:induction false} ButtonsNone(rs: seq<Report>)
    requires forall i :: 0 <= i < |rs| ==> !rs[i].Mouse?
    ensures Buttons(rs) == []
  {
    if rs != [] { ButtonsNone(rs[..|rs| - 1]); }
  }

  lemma {:induction false} ButtonsOne(r: Report)
    ensures Buttons([r]) == if r.Mouse? then [r.body.buttons] else []
  {
    assert [r][..0] == [];
  }

  /** The last mouse report's buttons are the last of all. */
  lemma {:induction false} ButtonsLast(rs: seq<Report>)
    ensures LastMouse(rs).Some? <==> Buttons(rs) != []
    ensures LastMouse(rs).Some? ==> Last(Buttons(rs)) == LastMouse(rs).value.buttons
  {
    if rs != [] && !rs[|rs| - 1].Mouse? { ButtonsLast(rs[..|rs| - 1]); }
  }

  // ---- the ledger ----

  /** `written` and `taken` are the button states written and those that left the queue, each
      after the released state both start from; `rest` is what is still to come. Written is level
      with taken, or one ahead. */
  ghost predicate Level(written: seq<Byte>, taken: seq<Byte>, rest: seq<Byte>) {
    && written != [] && taken != []
    && (Dedup(written) == Dedup(taken) || (rest != [] && Dedup(written) == Dedup(taken + rest[..1])))
  }

  lemma {:induction false} LevelMore(written: seq<Byte>, taken: seq<Byte>, rest: seq<Byte>, more: seq<Byte>)
    requires Level(written, taken, rest)
    ensures Level(written, taken, rest + more)
  {
    assert rest != [] ==> (rest + more)[..1] == rest[..1];
  }

  /** The queue gives up `more`. */
  lemma {:induction false} LevelTaken(written: seq<Byte>, taken: seq<Byte>, more: seq<Byte>, rest: seq<Byte>)
    requires Level(written, taken, more + rest) && more != []
    ensures Level(written + more, taken + more, rest)
  {
    if Dedup(written) == Dedup(taken) {
      DedupCongruent(written, taken, more);
    } else {
      assert (more + rest)[..1] == [more[0]];
      DedupCongruent(written, taken + [more[0]], more);
      DedupDoubled(taken, more[0], more[1..]);
      assert more == [more[0]] + more[1..];
    }
  }

  lemma {:induction false} DedupDoubled(a: seq<Byte>, x: Byte, s: seq<Byte>)
    ensures Dedup((a + [x]) + ([x] + s)) == Dedup(a + ([x] + s))
  {
    DedupRepeat(a + [x]);
    DedupCongruent(a + [x] + [x], a + [x], s);
    assert (a + [x]) + ([x] + s) == a + [x] + [x] + s;
    assert a + ([x] + s) == a + [x] + s;
  }

  /** The last written state again. */
  lemma {:induction false} LevelRepeat(written: seq<Byte>, taken: seq<Byte>, rest: seq<Byte>)
    requires Level(written, taken, rest)
    ensures Level(written + [Last(written)], taken, rest)
  {
    DedupRepeat(written);
  }

  /** The held buttons, with nothing queued. */
  lemma {:induction false} LevelCurrent(written: seq<Byte>, taken: seq<Byte>, pending: seq<Byte>, now: Byte)
    requires Level(written, taken, pending) && |pending| <= 1
    requires now == Last(taken + pending)
    ensures Level(written + [now], taken, pending)
  {
    if Dedup(written) == Dedup(taken) {
      DedupCongruent(written, taken, [now]);
      if pending == [] {
        assert taken + pending == taken;
        DedupRepeat(taken);
      } else {
        assert pending[..1] == [now];
      }
    } else {
      assert pending[..1] == [now];
      DedupCongruent(written, taken + [now], [now]);
      DedupRepeat(taken + [now]);
    }
  }

  function Pending(p: Pointer): (s: seq<Byte>)
    ensures |s| <= 1
  {
    if p.changed then [p.buttons] else []
  }

  ghost predicate Ledger(p: Pointer, queued: seq<Byte>, written: seq<Byte>, taken: seq<Byte>) {
    Level(written, taken, queued + Pending(p)) && Last(written) == p.written.buttons
  }

  /** What was written is a prefix of what was staged or is pending. */
  predicate InOrder(p: Pointer, queued: seq<Byte>, written: seq<Byte>, taken: seq<Byte>) {
    Dedup(written) <= Dedup((taken + queued) + Pending(p))
  }

  /** The pending change is all there is to come, and was already written: not the state `last` staged. */
  predicate Ahead(p: Pointer, queued: seq<Byte>, last: Byte) {
    p.changed && queued == [] && p.written.buttons != last
  }

  /** The buttons a step writes, and those that leave the queue with it. */
  function WrittenNow(c: Central, step: Step): seq<Byte>
    requires c.pointer.Shaped()
  {
    Buttons(WroteReports(c, step))
  }

  function TakenNow(c: Central, step: Step): seq<Byte>
    requires c.pointer.Shaped()
  {
    Buttons(TookReports(c, step))
  }

  lemma {:induction false} QueuedButtons(c: Central, step: Step)
    requires c.pointer.Shaped() && c.relay
    ensures Buttons(c.queue) + Buttons(Stages(c, step)) == TakenNow(c, step) + Buttons(Do(c, step).queue)
  {
    QueueMoves(c, step);
    ButtonsMove(c.queue, TookReports(c, step), Stages(c, step));
  }

  lemma {:induction false} ButtonsMove(queue: seq<Report>, moved: seq<Report>, more: seq<Report>)
    requires |moved| <= |queue| && forall i :: 0 <= i < |moved| ==> SameButTotals(moved[i], queue[i])
    ensures Buttons(queue) + Buttons(more) == Buttons(moved) + Buttons(queue[|moved|..] + more)
  {
    var n := |moved|;
    assert queue == queue[..n] + queue[n..];
    ButtonsAppend(queue[..n], queue[n..]);
    ButtonsAppend(queue[n..], more);
    ButtonsSame(moved, queue[..n]);
  }

  lemma {:induction false} LevelIsPrefix(written: seq<Byte>, taken: seq<Byte>, queued: seq<Byte>, pending: seq<Byte>)
    requires Level(written, taken, queued + pending)
    ensures Dedup(written) <= Dedup((taken + queued) + pending)
  {
    var rest := queued + pending;
    assert (taken + queued) + pending == taken + rest;
    if Dedup(written) == Dedup(taken) {
      DedupPrefix(taken, rest);
    } else {
      DedupPrefix(taken + rest[..1], rest[1..]);
      assert taken + rest[..1] + rest[1..] == taken + rest;
    }
  }

  /** Ahead of what was taken means by the pending state. */
  lemma {:induction false} AheadBy(p: Pointer, written: seq<Byte>, taken: seq<Byte>)
    requires Ledger(p, [], written, taken) && p.changed
    ensures Ahead(p, [], Last(taken)) ==> p.buttons != Last(taken) && Dedup(written) == Dedup(taken) + [p.buttons]
    ensures !Ahead(p, [], Last(taken)) ==> Dedup(written) == Dedup(taken)
  {
    assert [] + Pending(p) == [p.buttons] && [p.buttons][..1] == [p.buttons];
    DedupOne(taken, p.buttons);
    DedupRepeat(taken);
  }

  /** The pending change gives way to `now`, another state or none: in order exactly when it was not
      already written. */
  lemma {:induction false} ReplacedIff(p: Pointer, q: Pointer, queued: seq<Byte>, written: seq<Byte>, taken: seq<Byte>)
    requires Ledger(p, queued, written, taken) && p.changed && q.written == p.written
    requires q.changed ==> q.buttons != p.buttons
    ensures !Ahead(p, queued, Last(taken + queued)) ==> Ledger(q, queued, written, taken)
    ensures InOrder(q, queued, written, taken) <==> !Ahead(p, queued, Last(taken + queued))
  {
    if queued != [] {
      assert (queued + Pending(p))[..1] == (queued + Pending(q))[..1];
      LevelIsPrefix(written, taken, queued, Pending(q));
    } else {
      assert taken + [] == taken;
      AheadBy(p, written, taken);
      if Ahead(p, [], Last(taken)) {
        OvertakenBy(taken, p.buttons, Pending(q));
      } else {
        LevelIsPrefix(written, taken, queued, Pending(q));
      }
    }
  }

  lemma {:induction false} OvertakenBy(taken: seq<Byte>, x: Byte, pending: seq<Byte>)
    requires taken != [] && |pending| <= 1 && (pending != [] ==> pending[0] != x)
    ensures !(Dedup(taken) + [x] <= Dedup((taken + []) + pending))
  {
    var d := Dedup(taken);
    assert taken + [] == taken;
    if pending == [] {
      assert taken + pending == taken;
    } else {
      assert pending == [pending[0]];
      DedupOne(taken, pending[0]);
      assert (d + [x])[|d|] != (d + [pending[0]])[|d|];
    }
  }

  /** A first change: it queues up behind everything else. */
  lemma {:induction false} ChangeKeepsLedger(p: Pointer, queued: seq<Byte>, now: Byte, written: seq<Byte>,
                                             taken: seq<Byte>)
    requires Ledger(p, queued, written, taken) && !p.changed
    ensures Ledger(p.(buttons := now, changed := true), queued, written, taken)
  {
    assert queued + [] == queued;
    LevelMore(written, taken, queued, [now]);
  }

  lemma {:induction false} LedgerMoves(p: Pointer, q: Pointer, queued: seq<Byte>, more: seq<Byte>, written: seq<Byte>,
                                       taken: seq<Byte>)
    requires Ledger(p, queued, written, taken)
    requires more + Pending(q) == Pending(p) && q.written == p.written
    ensures Ledger(q, queued + more, written, taken)
  {
    assert (queued + more) + Pending(q) == queued + Pending(p);
  }

  /** What a step must not do; `last` is the state last staged.  It must not drop or replace a pending
      change that was already written, nor write held buttons that are neither pending nor staged. */
  predicate Fine(c: Central, step: Step, last: Byte)
    requires c.pointer.Shaped()
  {
    match step
    case Button(buttons) => buttons == c.pointer.buttons || !Ahead(c.pointer, Buttons(c.queue), last)
    case Sync => !c.pointer.changed || QueueHasRoom(c) || !Ahead(c.pointer, Buttons(c.queue), last)
    case Poll(accepted) => !accepted || !ShowsHeld(c) || c.pointer.changed || c.pointer.buttons == last
    case _ => true
  }

  /** Steps that write nothing. */
  lemma {:induction false} StagingIff(c: Central, step: Step, written: seq<Byte>, taken: seq<Byte>)
    requires c.pointer.Shaped() && c.relay && !step.Poll?
    requires Ledger(c.pointer, Buttons(c.queue), written, taken)
    ensures var d, last := Do(c, step), Last(taken + Buttons(c.queue));
      && (Fine(c, step, last) ==> Ledger(d.pointer, Buttons(d.queue), written, taken))
      && (InOrder(d.pointer, Buttons(d.queue), written, taken) <==> Fine(c, step, last))
  {
    var d, queued := Do(c, step), Buttons(c.queue);
    QueuedButtons(c, step);
    ButtonsNone([]);
    assert [] + Buttons(d.queue) == Buttons(d.queue) && queued + [] == queued;
    if Replaces(c, step) {
      ReplacedIff(c.pointer, d.pointer, queued, written, taken);
    } else {
      if step.Button? && step.buttons != c.pointer.buttons {
        ChangeKeepsLedger(c.pointer, queued, step.buttons, written, taken);
      } else {
        StagedButtons(c, step);
        LedgerMoves(c.pointer, d.pointer, queued, Buttons(Stages(c, step)), written, taken);
      }
      LevelIsPrefix(written, taken, Buttons(d.queue), Pending(d.pointer));
    }
  }

  /** A pending change gives way to another, or its report is refused. */
  predicate Replaces(c: Central, step: Step) {
    c.pointer.changed && ((step.Button? && step.buttons != c.pointer.buttons) || (step.Sync? && !QueueHasRoom(c)))
  }

  lemma {:induction false} StagedButtons(c: Central, step: Step)
    requires c.pointer.Shaped() && !step.Poll? && !Replaces(c, step)
    requires step.Button? ==> step.buttons == c.pointer.buttons
    ensures Buttons(Stages(c, step)) + Pending(Do(c, step).pointer) == Pending(c.pointer)
    ensures Do(c, step).pointer.buttons == c.pointer.buttons && Do(c, step).pointer.written == c.pointer.written
  {
    ButtonsNone([]);
    if |Stages(c, step)| == 1 {
      ButtonsOne(Stages(c, step)[0]);
      assert Stages(c, step) == [Stages(c, step)[0]];
    }
  }

  // ---- what a payload does to the ledger ----

  /** The pointer's own report: in order exactly when it repeats, or shows the pending or the last state. */
  lemma {:induction false} OwnIff(p: Pointer, left: seq<Byte>, own: seq<Byte>, drained: bool, written: seq<Byte>,
                                  taken: seq<Byte>)
    requires Ledger(p, left, written, taken) && Moves(p, left, left, [], own, drained)
    ensures var fine := own == [] || !drained || p.changed || p.buttons == Last(taken + left);
      && (fine ==> Level(written + own, taken, left + Pending(p)))
      && (InOrder(p, left, written + own, taken) <==> fine)
  {
    var rest := left + Pending(p);
    if own == [] {
      assert written + own == written;
      LevelIsPrefix(written, taken, left, Pending(p));
    } else if !drained {
      assert own == [Last(written)];
      LevelRepeat(written, taken, rest);
      LevelIsPrefix(written + own, taken, left, Pending(p));
    } else {
      assert taken + left == taken && rest == Pending(p) && own == [p.buttons];
      if p.changed || p.buttons == Last(taken) {
        LevelCurrent(written, taken, Pending(p), p.buttons);
        LevelIsPrefix(written + own, taken, left, Pending(p));
      } else {
        DedupOne(written, p.buttons);
        OvertakenBy(taken, p.buttons, []);
      }
    }
  }

  lemma {:induction false} MovesIff(p: Pointer, queued: seq<Byte>, moved: seq<Byte>, left: seq<Byte>, own: seq<Byte>,
                                    drained: bool,
                                    written: seq<Byte>, taken: seq<Byte>)
    requires Ledger(p, queued, written, taken) && Moves(p, queued, left, moved, own, drained)
    ensures var fine := own == [] || !drained || p.changed || p.buttons == Last(taken + queued);
      && (fine ==> Level(written + (moved + own), taken + moved, left + Pending(p)))
      && (InOrder(p, left, written + (moved + own), taken + moved) <==> fine)
  {
    if moved != [] {
      assert queued + Pending(p) == moved + (left + Pending(p)) && moved + own == moved;
      LevelTaken(written, taken, moved, left + Pending(p));
      LevelIsPrefix(written + moved, taken + moved, left, Pending(p));
    } else {
      assert queued == left && taken + moved == taken && moved + own == own;
      OwnIff(p, left, own, drained, written, taken);
    }
  }

  lemma {:induction false} SentButtons(p: Pointer, rs: seq<Report>)
    ensures p.Sent(rs).changed == p.changed && p.Sent(rs).buttons == p.buttons
    ensures p.Sent(rs).written.buttons == if Buttons(rs) == [] then p.written.buttons else Last(Buttons(rs))
  {
    ButtonsLast(rs);
  }

  /** `q` is `p` once `own`, the buttons of a payload, are written. */
  ghost predicate Committed(p: Pointer, q: Pointer, own: seq<Byte>) {
    && q.changed == p.changed && q.buttons == p.buttons
    && q.written.buttons == if own == [] then p.written.buttons else Last(own)
  }

  /** `moved` leaves the queue and `own`, at most one state, is appended to it: the held one when the
      queue has drained, the written one again otherwise. */
  ghost predicate Moves(p: Pointer, queued: seq<Byte>, left: seq<Byte>, moved: seq<Byte>, own: seq<Byte>,
                        drained: bool) {
    && queued == moved + left && |own| <= 1 && (drained ==> left == [])
    && (own != [] ==> moved == [] && own[0] == if drained then p.buttons else p.written.buttons)
  }

  lemma {:induction false} PollMoves(c: Central, moved: seq<Report>, snapshot: seq<Report>, own: seq<Report>)
    requires |moved| <= |c.queue| && forall i :: 0 <= i < |moved| ==> SameButTotals(moved[i], c.queue[i])
    requires OwnReport(c, own, c.queue[|moved|..]) && (own != [] ==> LastMouse(moved).None?)
    requires forall i :: 0 <= i < |snapshot| ==> !snapshot[i].Mouse?
    ensures Moves(c.pointer, Buttons(c.queue), Buttons(c.queue[|moved|..]), Buttons(moved), Buttons(own),
                  c.queue[|moved|..] == [])
    ensures Buttons(own) == [] <==> own == []
    ensures Buttons(moved + snapshot + own) == Buttons(moved) + Buttons(own)
  {
    var left := c.queue[|moved|..];
    ButtonsNone([]);
    ButtonsMove(c.queue, moved, []);
    assert left + [] == left && Buttons(c.queue) + [] == Buttons(c.queue);
    ButtonsNone(snapshot);
    ButtonsAppend(moved, snapshot);
    ButtonsAppend(moved + snapshot, own);
    assert Buttons(moved) + [] == Buttons(moved);
    if own != [] {
      ButtonsOne(own[0]);
      assert own == [own[0]];
      ButtonsLast(moved);
    }
  }

  lemma {:induction false} PollIff(sizes: Sizes, c: Central, accepted: bool, written: seq<Byte>, taken: seq<Byte>)
    requires FitToPack(sizes, c) && sizes.Valid()
    requires Ledger(c.pointer, Buttons(c.queue), written, taken)
    ensures var d, step, last := Do(c, Poll(accepted)), Poll(accepted), Last(taken + Buttons(c.queue));
      && (Fine(c, step, last) ==>
            Ledger(d.pointer, Buttons(d.queue), written + WrittenNow(c, step), taken + TakenNow(c, step)))
      && (InOrder(d.pointer, Buttons(d.queue), written + WrittenNow(c, step), taken + TakenNow(c, step)) <==>
            Fine(c, step, last))
  {
    var moved, snapshot, own := PollEffect(sizes, c, accepted);
    PollMoves(c, moved, snapshot, own);
    SentButtons(c.pointer, moved + snapshot + own);
    SentIff(c.pointer, c.pointer.Sent(moved + snapshot + own), Buttons(c.queue), Buttons(moved),
            Buttons(c.queue[|moved|..]), Buttons(own), c.queue[|moved|..] == [], written, taken);
    PollFine(sizes, c, accepted, Last(taken + Buttons(c.queue)));
  }

  lemma {:induction false} PollFine(sizes: Sizes, c: Central, accepted: bool, last: Byte)
    requires FitToPack(sizes, c) && sizes.Valid()
    ensures Fine(c, Poll(accepted), last)
       <==> OwnOf(c, Poll(accepted)) == [] || Do(c, Poll(accepted)).queue != [] || c.pointer.changed
            || c.pointer.buttons == last
  {
    ShowsHeldIff(sizes, c, accepted);
  }

  lemma {:induction false} SentIff(p: Pointer, q: Pointer, queued: seq<Byte>, moved: seq<Byte>, left: seq<Byte>,
                                   own: seq<Byte>, drained: bool, written: seq<Byte>, taken: seq<Byte>)
    requires Ledger(p, queued, written, taken) && Moves(p, queued, left, moved, own, drained)
    requires Committed(p, q, moved + own)
    ensures var fine := own == [] || !drained || p.changed || p.buttons == Last(taken + queued);
      && (fine ==> Ledger(q, left, written + (moved + own), taken + moved))
      && (InOrder(q, left, written + (moved + own), taken + moved) <==> fine)
  {
    MovesIff(p, queued, moved, left, own, drained, written, taken);
    LastWritten(p, q, written, moved + own);
  }

  lemma {:induction false} LastWritten(p: Pointer, q: Pointer, written: seq<Byte>, now: seq<Byte>)
    requires written != [] && Last(written) == p.written.buttons && Committed(p, q, now)
    ensures Last(written + now) == q.written.buttons && Pending(q) == Pending(p)
  {
    if now == [] { assert written + now == written; }
  }

  /** What every step keeps, and exactly when it writes a state out of order. */
  lemma {:induction false} StepIff(sizes: Sizes, c: Central, step: Step, written: seq<Byte>, taken: seq<Byte>)
    requires FitToPack(sizes, c) && sizes.Valid()
    requires Ledger(c.pointer, Buttons(c.queue), written, taken)
    ensures var d, last := Do(c, step), Last(taken + Buttons(c.queue));
      && (Fine(c, step, last) ==>
            Ledger(d.pointer, Buttons(d.queue), written + WrittenNow(c, step), taken + TakenNow(c, step)))
      && (InOrder(d.pointer, Buttons(d.queue), written + WrittenNow(c, step), taken + TakenNow(c, step)) <==>
            Fine(c, step, last))
  {
    if step.Poll? {
      PollIff(sizes, c, step.accepted, written, taken);
    } else {
      ButtonsNone([]);
      assert written + [] == written && taken + [] == taken;
      StagingIff(c, step, written, taken);
    }
  }

  // ---- over runs ----

  /** Everything the host should have seen and everything it was sent, from the released state. */
  function Sent(setup: Setup, steps: seq<Step>): seq<Byte> { [0] + Buttons(ReportsOut(Out(setup, steps))) }
  function Taken(setup: Setup, steps: seq<Step>): seq<Byte> { [0] + Buttons(QueuedOut(Out(setup, steps))) }
  function Changed(setup: Setup, steps: seq<Step>): seq<Byte> {
    [0] + Buttons(Staged(setup, steps)) + Pending(State(setup, steps).pointer)
  }

  lemma {:induction false} RunGrows(setup: Setup, steps: seq<Step>)
    requires steps != []
    ensures var init := steps[..|steps| - 1]; var c, step := State(setup, init), steps[|steps| - 1];
      && Sent(setup, steps) == Sent(setup, init) + WrittenNow(c, step)
      && Taken(setup, steps) == Taken(setup, init) + TakenNow(c, step)
  {
    var init, step := steps[..|steps| - 1], steps[|steps| - 1];
    OutGrows(setup, steps);
    FromReleased(ReportsOut(Out(setup, init)), WroteReports(State(setup, init), step));
    FromReleased(QueuedOut(Out(setup, init)), TookReports(State(setup, init), step));
  }

  lemma {:induction false} FromReleased(a: seq<Report>, b: seq<Report>)
    ensures [0] + Buttons(a + b) == ([0] + Buttons(a)) + Buttons(b)
  {
    ButtonsAppend(a, b);
  }

  /** What has left the queue and what is still in it is what was staged. */
  lemma {:induction false} TakenAndQueued(setup: Setup, steps: seq<Step>)
    ensures Taken(setup, steps) + Buttons(State(setup, steps).queue) == [0] + Buttons(Staged(setup, steps))
  {
    ExactlyOnceInOrder(setup, steps);
    TakenAndLeft(QueuedOut(Out(setup, steps)), Staged(setup, steps));
  }

  lemma {:induction false} TakenAndLeft(written: seq<Report>, staged: seq<Report>)
    requires RelayRuns.Prefix(written, staged)
    ensures ([0] + Buttons(written)) + Buttons(staged[|written|..]) == [0] + Buttons(staged)
  {
    var n := |written|;
    assert staged == staged[..n] + staged[n..];
    ButtonsAppend(staged[..n], staged[n..]);
    ButtonsSame(written, staged[..n]);
  }

  function LastStaged(setup: Setup, steps: seq<Step>): Byte { Last([0] + Buttons(Staged(setup, steps))) }

  /** No step of the run drops, replaces or invents a state the host was shown. */
  predicate Orderly(setup: Setup, steps: seq<Step>) {
    steps == [] || (Orderly(setup, steps[..|steps| - 1])
                    && Fine(State(setup, steps[..|steps| - 1]), steps[|steps| - 1],
                            LastStaged(setup, steps[..|steps| - 1])))
  }

  /** The distinct states written are a prefix of the distinct states staged, a pending one included. */
  predicate NotOvertaken(setup: Setup, steps: seq<Step>) { Dedup(Sent(setup, steps)) <= Dedup(Changed(setup, steps)) }

  predicate AlwaysNotOvertaken(setup: Setup, steps: seq<Step>) {
    NotOvertaken(setup, steps) && (steps == [] || AlwaysNotOvertaken(setup, steps[..|steps| - 1]))
  }

  ghost predicate Even(setup: Setup, steps: seq<Step>) {
    Ledger(State(setup, steps).pointer, Buttons(State(setup, steps).queue), Sent(setup, steps), Taken(setup, steps))
  }

  lemma {:induction false} RunStepIff(setup: Setup, init: seq<Step>, step: Step)
    requires setup.sizes.Valid() && HidRun(setup.sizes, init) && Even(setup, init)
    ensures var fine := Fine(State(setup, init), step, LastStaged(setup, init));
      (fine ==> Even(setup, init + [step])) && (NotOvertaken(setup, init + [step]) <==> fine)
  {
    var steps := init + [step];
    assert steps[..|init|] == init;
    AlwaysFit(setup, init);
    TakenAndQueued(setup, init);
    TakenAndQueued(setup, steps);
    RunGrows(setup, steps);
    StepIff(setup.sizes, State(setup, init), step, Sent(setup, init), Taken(setup, init));
  }

  ghost predicate IffAt(setup: Setup, steps: seq<Step>) {
    && (AlwaysNotOvertaken(setup, steps) <==> Orderly(setup, steps))
    && (Orderly(setup, steps) ==> Even(setup, steps))
  }

  lemma {:induction false} StartsEven(setup: Setup)
    ensures IffAt(setup, [])
  {
    ButtonsNone([]);
    assert [0] + ([] + []) == [0] && [0] + [] + [] == [0];
  }

  /** Button changes are never overtaken, at any moment of a run, exactly when no step of it drops or
      replaces a pending change already written, or writes held buttons neither pending nor staged. */
  lemma {:induction false} NeverOvertakenIff(setup: Setup, steps: seq<Step>)
    requires setup.sizes.Valid() && HidRun(setup.sizes, steps)
    ensures AlwaysNotOvertaken(setup, steps) <==> Orderly(setup, steps)
    ensures Orderly(setup, steps) ==> Even(setup, steps)
  {
    IffAlways(setup, steps);
  }

  lemma {:induction false} IffAlways(setup: Setup, steps: seq<Step>)
    requires setup.sizes.Valid() && HidRun(setup.sizes, steps)
    ensures IffAt(setup, steps)
  {
    if steps == [] {
      StartsEven(setup);
    } else {
      var init, step := steps[..|steps| - 1], steps[|steps| - 1];
      assert init + [step] == steps;
      IffAlways(setup, init);
      IffStep(setup, init, step);
    }
  }

  lemma {:induction false} IffStep(setup: Setup, init: seq<Step>, step: Step)
    requires setup.sizes.Valid() && HidRun(setup.sizes, init) && IffAt(setup, init)
    ensures IffAt(setup, init + [step])
  {
    OrderlySnoc(setup, init, step);
    AlwaysSnoc(setup, init, step);
    if Orderly(setup, init) { RunStepIff(setup, init, step); }
  }

  lemma {:induction false} OrderlySnoc(setup: Setup, init: seq<Step>, step: Step)
    ensures Orderly(setup, init + [step])
            <==> Orderly(setup, init) && Fine(State(setup, init), step, LastStaged(setup, init))
  {
    assert (init + [step])[..|init|] == init;
  }

  lemma {:induction false} AlwaysSnoc(setup: Setup, init: seq<Step>, step: Step)
    ensures AlwaysNotOvertaken(setup, init + [step])
            <==> AlwaysNotOvertaken(setup, init) && NotOvertaken(setup, init + [step])
  {
    assert (init + [step])[..|init|] == init;
  }

  // ---- a condition of the producers alone ----

  /** Each change is synced before the next, and its report is accepted. */
  predicate OneChange(c: Central, step: Step) {
    && (step.Button? ==> !c.pointer.changed || step.buttons == c.pointer.buttons)
    && (step.Sync? ==> !c.pointer.changed || QueueHasRoom(c))
  }

  predicate OneChangeASync(setup: Setup, steps: seq<Step>) {
    steps == [] || (OneChangeASync(setup, steps[..|steps| - 1])
                    && OneChange(State(setup, steps[..|steps| - 1]), steps[|steps| - 1]))
  }

  lemma {:induction false} HeldIsLast(setup: Setup, steps: seq<Step>)
    requires OneChangeASync(setup, steps)
    ensures State(setup, steps).pointer.buttons == Last(Changed(setup, steps))
  {
    ButtonsNone([]);
    if steps != [] {
      var init, step := steps[..|steps| - 1], steps[|steps| - 1];
      HeldIsLast(setup, init);
      HeldStep(State(setup, init), step, Staged(setup, init));
    }
  }

  lemma {:induction false} HeldStep(c: Central, step: Step, staged: seq<Report>)
    requires c.pointer.Shaped() && c.relay && OneChange(c, step)
    requires c.pointer.buttons == Last([0] + Buttons(staged) + Pending(c.pointer))
    ensures var d := Do(c, step);
      d.pointer.buttons == Last([0] + Buttons(staged + Stages(c, step)) + Pending(d.pointer))
  {
    ButtonsNone([]);
    if step.Poll? {
      PollHolds(c, step.accepted);
      HeldMoves(c.pointer, Do(c, step).pointer, staged, Stages(c, step));
    } else if !step.Button? || step.buttons == c.pointer.buttons {
      StagedButtons(c, step);
      HeldMoves(c.pointer, Do(c, step).pointer, staged, Stages(c, step));
    }
  }

  lemma {:induction false} HeldMoves(p: Pointer, q: Pointer, staged: seq<Report>, more: seq<Report>)
    requires Buttons(more) + Pending(q) == Pending(p) && q.buttons == p.buttons
    requires p.buttons == Last([0] + Buttons(staged) + Pending(p))
    ensures q.buttons == Last([0] + Buttons(staged + more) + Pending(q))
  {
    ButtonsAppend(staged, more);
    assert [0] + (Buttons(staged) + Buttons(more)) + Pending(q) == [0] + Buttons(staged) + Pending(p);
  }

  lemma {:induction false} PollHolds(c: Central, accepted: bool)
    requires c.pointer.Shaped()
    ensures var q := Do(c, Poll(accepted)).pointer; q.buttons == c.pointer.buttons && q.changed == c.pointer.changed
  {
  }

  lemma {:induction false} SyncedIsOrderly(setup: Setup, steps: seq<Step>)
    requires OneChangeASync(setup, steps)
    ensures Orderly(setup, steps)
  {
    if steps != [] {
      var init := steps[..|steps| - 1];
      SyncedIsOrderly(setup, init);
      HeldIsLast(setup, init);
      assert [0] + Buttons(Staged(setup, init)) + [] == [0] + Buttons(Staged(setup, init));
    }
  }

  /** So each change synced on its own, and its report accepted, is enough. */
  lemma {:induction false} NeverOvertaken(setup: Setup, steps: seq<Step>)
    requires setup.sizes.Valid() && HidRun(setup.sizes, steps) && OneChangeASync(setup, steps)
    ensures AlwaysNotOvertaken(setup, steps)
  {
    SyncedIsOrderly(setup, steps);
    NeverOvertakenIff(setup, steps);
  }

  /** Once every change is synced and the queue has drained, nothing is missing: the distinct states
      written are those staged, and the last of them is the one held. */
  lemma {:induction false} DrainedIsCurrent(setup: Setup, steps: seq<Step>)
    requires setup.sizes.Valid() && HidRun(setup.sizes, steps) && OneChangeASync(setup, steps)
    requires State(setup, steps).queue == [] && !State(setup, steps).pointer.changed
    ensures Dedup(Sent(setup, steps)) == Dedup(Changed(setup, steps))
    ensures State(setup, steps).pointer.written.buttons == State(setup, steps).pointer.buttons
  {
    SyncedIsOrderly(setup, steps);
    NeverOvertakenIff(setup, steps);
    HeldIsLast(setup, steps);
    TakenAndQueued(setup, steps);
    ButtonsNone([]);
    assert Taken(setup, steps) + ([] + []) == Taken(setup, steps);
    assert Changed(setup, steps) == Taken(setup, steps);
  }

  // ---- two runs that fail ----

  /** Two changes before one sync: the poll between them lets the host see a state no report of the
      queue ever carries. */
  lemma {:induction false} TwoChangesLeak(setup: Setup, steps: seq<Step>)
    requires steps == [Button(1), Poll(true), Button(3)]
    ensures HidRun(setup.sizes, steps)
    ensures Dedup(Sent(setup, steps)) == [0, 1] && Dedup(Changed(setup, steps)) == [0, 3]
  {
    var totals := LeakRun(setup, steps);
    LeakSeen(setup, steps, totals);
  }

  lemma {:induction false} LeakSeen(setup: Setup, steps: seq<Step>, totals: seq<I16>)
    requires Staged(setup, steps) == [] && Pending(State(setup, steps).pointer) == [3]
    requires Out(setup, steps) == [Replies([], [], [Mouse(Body(1, totals))])]
    ensures Dedup(Sent(setup, steps)) == [0, 1] && Dedup(Changed(setup, steps)) == [0, 3]
  {
    LeakStates(State(setup, steps).pointer, Out(setup, steps), Staged(setup, steps), totals);
  }

  lemma {:induction false} LeakRun(setup: Setup, steps: seq<Step>) returns (totals: seq<I16>)
    requires steps == [Button(1), Poll(true), Button(3)]
    ensures Staged(setup, steps) == [] && Pending(State(setup, steps).pointer) == [3]
    ensures Out(setup, steps) == [Replies([], [], [Mouse(Body(1, totals))])]
  {
    assert [] + [steps[0]] == steps[..1] && steps[..1] + [steps[1]] == steps[..2] && steps[..2] + [steps[2]] == steps;
    RunSnoc(setup, [], steps[0]);
    LeakWrites(setup, State(setup, steps[..1]));
    totals := State(setup, steps[..1]).pointer.Totals();
    RunSnoc(setup, steps[..1], steps[1]);
    RunSnoc(setup, steps[..2], steps[2]);
  }

  lemma {:induction false} LeakStates(p: Pointer, out: seq<Written>, staged: seq<Report>, totals: seq<I16>)
    requires out == [Replies([], [], [Mouse(Body(1, totals))])] && staged == [] && Pending(p) == [3]
    ensures Dedup([0] + Buttons(ReportsOut(out))) == [0, 1]
    ensures Dedup([0] + Buttons(staged) + Pending(p)) == [0, 3]
  {
    OneOut(out, Mouse(Body(1, totals)));
    ButtonsOne(Mouse(Body(1, totals)));
    ButtonsNone([]);
    assert [0] + [] == [0];
    DedupTwo(0, 1);
    DedupTwo(0, 3);
  }

  lemma {:induction false} OneOut(out: seq<Written>, r: Report)
    requires out == [Replies([], [], [r])]
    ensures ReportsOut(out) == [r]
  {
    assert out[..0] == [] && ReportsOut([]) == [];
  }

  lemma {:induction false} DedupTwo(x: Byte, y: Byte)
    requires x != y
    ensures Dedup([x] + [y]) == [x, y]
  {
    DedupOne([], x);
    assert [] + [x] == [x];
    DedupOne([x], y);
  }

  lemma {:induction false} LeakWrites(setup: Setup, c: Central)
    requires c == Do(Start(setup), Button(1))
    ensures Wrote(c, Poll(true)) == Some(Replies([], [], [Mouse(Body(1, c.pointer.Totals()))]))
    ensures Pending(Do(Do(c, Poll(true)), Button(3)).pointer) == [3]
  {
    assert FirstControl(c) == 2 && Count(c) == 0 && !IdleIsFresh(c);
    var body := Body(1, c.pointer.Totals());
    assert c.pointer.Take(MAX_PAYLOAD, false) == [Mouse(body)];
    assert Append(c, [], false) == [Mouse(body)];
  }

  /** A change synced on its own, but into a full queue: the poll that drains the queue writes the held
      state, which no report carries and nothing has pending. */
  lemma {:induction false} DroppedReportLeaks(setup: Setup, k: seq<Byte>, steps: seq<Step>)
    requires setup.sizes.Valid() && setup.depth == 1 && IsHid(setup.sizes, Keyboard(k))
    requires steps == [Change(Keyboard(k)), Button(1), Sync, Poll(true)]
    ensures HidRun(setup.sizes, steps) && Orderly(setup, steps[..3])
    ensures !NotOvertaken(setup, steps)
  {
    HidKey(setup.sizes, k, steps);
    assert steps[..3] == [Change(Keyboard(k)), Button(1), Sync] && steps[..3] + [Poll(true)] == steps;
    DroppedLeaks(setup, k, steps[..3]);
  }

  lemma {:induction false} DroppedLeaks(setup: Setup, k: seq<Byte>, init: seq<Step>)
    requires setup.sizes.Valid() && setup.depth == 1 && IsHid(setup.sizes, Keyboard(k))
    requires init == [Change(Keyboard(k)), Button(1), Sync]
    ensures Orderly(setup, init) && !NotOvertaken(setup, init + [Poll(true)])
  {
    HidKey(setup.sizes, k, init);
    DroppedRun(setup, k, init);
    DroppedPoll(setup, k);
    LeakAfter(setup, init, Dropped(setup, k));
  }

  lemma {:induction false} HidKey(sizes: Sizes, k: seq<Byte>, steps: seq<Step>)
    requires IsHid(sizes, Keyboard(k))
    requires forall i :: 0 <= i < |steps| && steps[i].Change? ==> steps[i] == Change(Keyboard(k))
    ensures HidRun(sizes, steps)
  {
  }

  lemma {:induction false} LeakAfter(setup: Setup, init: seq<Step>, c: Central)
    requires setup.sizes.Valid() && HidRun(setup.sizes, init) && Orderly(setup, init)
    requires State(setup, init) == c && !Fine(c, Poll(true), LastStaged(setup, init))
    ensures !NotOvertaken(setup, init + [Poll(true)])
  {
    NeverOvertakenIff(setup, init);
    RunStepIff(setup, init, Poll(true));
  }

  /** A key report fills the queue, and the button's was dropped. */
  function Dropped(setup: Setup, k: seq<Byte>): Central {
    var c := Start(setup);
    c.(queue := [Keyboard(k)], uncounted := 1, keyboard := k, pointer := c.pointer.(buttons := 1))
  }

  lemma {:induction false} DroppedState(setup: Setup, k: seq<Byte>)
    requires setup.depth == 1
    ensures var one := Do(Start(setup), Change(Keyboard(k)));
      var two := Do(one, Button(1));
      && Stages(Start(setup), Change(Keyboard(k))) == [Keyboard(k)] && one.queue == [Keyboard(k)]
      && !one.pointer.changed && two.pointer.changed && two.pointer.written.buttons == 0 && two.queue == [Keyboard(k)]
      && Stages(two, Sync) == [] && Do(two, Sync) == Dropped(setup, k)
  {
  }

  lemma {:induction false} DroppedRun(setup: Setup, k: seq<Byte>, steps: seq<Step>)
    requires setup.depth == 1 && steps == [Change(Keyboard(k)), Button(1), Sync]
    ensures Orderly(setup, steps) && LastStaged(setup, steps) == 0 && State(setup, steps) == Dropped(setup, k)
  {
    var one, two := steps[..1], steps[..2];
    DroppedState(setup, k);
    KeyOnly(k);
    OrderlyOne(setup, k, one);
    assert one + [steps[1]] == two && two + [steps[2]] == steps && [Keyboard(k)] + [] == [Keyboard(k)];
    RunSnoc(setup, one, steps[1]);
    RunSnoc(setup, two, steps[2]);
    OrderlySnoc(setup, one, steps[1]);
    OrderlySnoc(setup, two, steps[2]);
  }

  lemma {:induction false} OrderlyOne(setup: Setup, k: seq<Byte>, steps: seq<Step>)
    requires setup.depth == 1 && steps == [Change(Keyboard(k))]
    ensures Orderly(setup, steps) && State(setup, steps) == Do(Start(setup), steps[0])
    ensures Staged(setup, steps) == [Keyboard(k)]
  {
    assert [] + [steps[0]] == steps;
    RunSnoc(setup, [], steps[0]);
    OrderlySnoc(setup, [], steps[0]);
    DroppedState(setup, k);
  }

  lemma {:induction false} KeyOnly(k: seq<Byte>)
    ensures Buttons([Keyboard(k)]) == [] && Last([0] + Buttons([Keyboard(k)])) == 0
  {
    ButtonsOne(Keyboard(k));
  }

  lemma {:induction false} DroppedPoll(setup: Setup, k: seq<Byte>)
    requires setup.sizes.Valid() && setup.depth == 1 && IsHid(setup.sizes, Keyboard(k))
    ensures !Fine(Dropped(setup, k), Poll(true), 0)
  {
    var c := Dropped(setup, k);
    assert FirstControl(c) == 2;
    HidFits(setup.sizes, c.queue[0]);
    HeadFits(setup.sizes, c);
    OneLength(Keyboard(k));
  }
}
