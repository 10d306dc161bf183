/** The central's half of the relay: reply queue, idle latch, running pointer totals and the poll
    that packs them into one ACK payload (src/esb_link_central.c:142-334,
    src/esb_hid_relay_pointer.c:43-216, src/esb_hid_relay_central.c:43-104). */
module RelayCentral {
  import opened Common
  import opened Layout
  import opened MotionTotal
  import opened RelayReports

  const COUNTER_TURN: nat := 0x1_0000_0000

  /** Running sums, held buttons, and the body the dongle was last written. */
  datatype Pointer = Pointer(sums: seq<int>, buttons: Byte, changed: bool, refresh: bool, written: Body) {
    predicate Shaped() { |sums| == AXES && |written.totals| == AXES }

    function Totals(): (t: seq<I16>)
      requires Shaped()
      ensures |t| == AXES && forall a :: 0 <= a < AXES ==> t[a] == Low16(sums[a])
    {
      seq(AXES, a requires 0 <= a < AXES => Low16(sums[a]))
    }

    predicate MotionPending()
      requires Shaped()
    {
      Totals() != written.totals
    }

    /** Running totals written over a queued mouse report's. */
    function Stamp(r: Report): (s: Report)
      requires Shaped()
      ensures Length(s) == Length(r) && (s.Mouse? <==> r.Mouse?)
    {
      if r.Mouse? then Mouse(Body(r.body.buttons, Totals())) else r
    }

    /** The report appended to a payload: none without room or news. */
    function Take(room: nat, changesQueued: bool): (rs: seq<Report>)
      requires Shaped()
      ensures |rs| <= 1 && TotalLength(rs) <= room
      ensures forall i :: 0 <= i < |rs| ==> rs[i].Mouse? && rs[i].body.totals == Totals()
    {
      var body := Body(if changesQueued then written.buttons else buttons, Totals());
      if room < POINTER_LENGTH || (body == written && !refresh) then []
      else assert TotalLength([Mouse(body)]) == TotalLength([]) + POINTER_LENGTH; [Mouse(body)]
    }

    /** The payload reached the ACK FIFO: its last mouse report becomes the written one. */
    function Sent(rs: seq<Report>): (p: Pointer)
      ensures p.sums == sums && p.buttons == buttons && p.changed == changed
    {
      match LastMouse(rs)
      case None => this
      case Some(body) => this.(written := body, refresh := false)
    }
  }

  datatype Idle = Idle(reports: seq<Report>, staged: nat)

  /** One pipe's outgoing side. `control` holds the two control latches, `hid` ZMK's current
      keyboard and consumer reports, `uncounted` the queued reports whose counter increment is
      still to come. */
  datatype Central = Central(relay: bool, depth: nat, queue: seq<Report>, staged: nat, uncounted: nat,
                             idle: Option<Idle>, control: seq<Option<seq<Byte>>>, keyboard: seq<Byte>,
                             consumer: seq<Byte>, pointer: Pointer)

  /** What one successful write put into the ACK FIFO, in wire order. */
  datatype Written =
    | Control(bytes: seq<Byte>)
    | Replies(queued: seq<Report>, snapshot: seq<Report>, pointer: seq<Report>) {
    function Reports(): seq<Report> {
      if Control? then [] else queued + snapshot + pointer
    }
  }

  // ---- packing ----

  function QueuedRoom(c: Central): nat
    requires c.pointer.Shaped()
  {
    if !c.relay || !c.pointer.MotionPending() then MAX_PAYLOAD else MAX_PAYLOAD - POINTER_LENGTH
  }

  /** How many queued reports fit: one command, or as many whole reports as there is room for. */
  function TakenFrom(relay: bool, queue: seq<Report>, room: nat, used: nat, from: nat): (n: nat)
    requires from <= |queue|
    ensures from <= n <= |queue|
    decreases |queue| - from
  {
    if from == |queue| || used + Length(queue[from]) > room then from
    else if !relay then from + 1
    else TakenFrom(relay, queue, room, used + Length(queue[from]), from + 1)
  }

  lemma {:induction false} TakenMore(relay: bool, queue: seq<Report>, room: nat, length: nat, taken: nat)
    requires taken < |queue| && length + Length(queue[taken]) <= room
    ensures TakenFrom(relay, queue, room, length, taken)
            == if relay then TakenFrom(relay, queue, room, length + Length(queue[taken]), taken + 1) else taken + 1
  {
  }

  function Packed(c: Central, n: nat): (rs: seq<Report>)
    requires c.pointer.Shaped() && n <= |c.queue|
    ensures |rs| == n
    ensures forall i :: 0 <= i < n ==> rs[i] == if c.relay then c.pointer.Stamp(c.queue[i]) else c.queue[i]
  {
    if n == 0 then []
    else Packed(c, n - 1) + [if c.relay then c.pointer.Stamp(c.queue[n - 1]) else c.queue[n - 1]]
  }

  function Append(c: Central, rs: seq<Report>, changesQueued: bool): seq<Report>
    requires c.pointer.Shaped()
  {
    if c.relay && TotalLength(rs) <= MAX_PAYLOAD
    then c.pointer.Take(MAX_PAYLOAD - TotalLength(rs), changesQueued) else []
  }

  function Count(c: Central): (n: nat)
    requires c.pointer.Shaped()
    ensures n <= |c.queue|
  {
    TakenFrom(c.relay, c.queue, QueuedRoom(c), 0, 0)
  }

  /** The payload offered when queued replies fit. */
  function QueuedPayload(c: Central): Written
    requires c.pointer.Shaped()
  {
    var packed := Packed(c, Count(c));
    Replies(packed, [], if LastMouse(packed).Some? && c.relay then [] else Append(c, packed, Count(c) < |c.queue|))
  }

  predicate IdleIsFresh(c: Central) { c.idle.Some? && c.idle.value.staged == c.staged }

  function IdlePayload(c: Central): Written
    requires c.pointer.Shaped()
  {
    var snapshot := if IdleIsFresh(c) then c.idle.value.reports else [];
    Replies([], snapshot, Append(c, snapshot, false))
  }

  function FirstControl(c: Central): (kind: nat)
    ensures kind <= |c.control|
    ensures kind < |c.control| ==> c.control[kind].Some?
  {
    FirstControlFrom(c.control, 0)
  }

  function FirstControlFrom(control: seq<Option<seq<Byte>>>, from: nat): (kind: nat)
    requires from <= |control|
    ensures from <= kind <= |control|
    ensures kind < |control| ==> control[kind].Some?
    ensures forall k :: from <= k < kind ==> control[k].None?
    decreases |control| - from
  {
    if from == |control| || control[from].Some? then from else FirstControlFrom(control, from + 1)
  }

  /** One poll: control before queued replies before the idle snapshot, committed only if the FIFO
      took the write. */
  function PollOnce(c: Central, accepted: bool): (r: (Central, Option<Written>))
    requires c.pointer.Shaped()
    ensures r.0.pointer.Shaped()
  {
    var kind := FirstControl(c);
    if kind < |c.control| then
      if accepted then (c.(control := c.control[kind := None]), Some(Control(c.control[kind].value))) else (c, None)
    else if Count(c) > 0 then
      var payload := QueuedPayload(c);
      if accepted
      then (c.(queue := c.queue[Count(c)..],
               pointer := if c.relay then c.pointer.Sent(payload.Reports()) else c.pointer), Some(payload))
      else (c, None)
    else
      var payload, idle := IdlePayload(c), if IdleIsFresh(c) then c.idle else None;
      if accepted && payload.Reports() != []
      then (c.(idle := None, pointer := c.pointer.Sent(payload.pointer)), Some(payload))
      else (c.(idle := idle), None)
  }

  // ---- the other steps ----

  /** Producer steps, a counter increment, or a poll.  A HID change is staged in two steps: the
      report enters the queue, and later the counter follows. */
  datatype Step =
    | Motion(axis: nat, value: int)
    | Button(buttons: Byte)
    | Sync
    | Change(report: Report)
    | Increment
    | Latch
    | Refresh
    | LatchControl(kind: nat, bytes: seq<Byte>)
    | Poll(accepted: bool)

  predicate QueueHasRoom(c: Central) { |c.queue| < c.depth }

  /** The report a step stages, and whether the queue takes it. */
  function Stages(c: Central, step: Step): seq<Report> {
    match step
    case Sync => if c.pointer.changed && QueueHasRoom(c) then [Mouse(Body(c.pointer.buttons, [0, 0, 0, 0]))] else []
    case Change(report) => if (report.Keyboard? || report.Consumer?) && QueueHasRoom(c) then [report] else []
    case _ => []
  }

  function Put(c: Central, rs: seq<Report>): Central {
    c.(queue := c.queue + rs, uncounted := c.uncounted + |rs|)
  }

  function Do(c: Central, step: Step): (r: Central)
    requires c.pointer.Shaped()
    ensures r.pointer.Shaped() && r.relay == c.relay && r.depth == c.depth
  {
    match step
    case Motion(axis, value) =>
      if axis >= AXES then c
      else c.(pointer := c.pointer.(sums := c.pointer.sums[axis := TotalAdd(c.pointer.sums[axis], value)]))
    case Button(buttons) =>
      if buttons == c.pointer.buttons then c else c.(pointer := c.pointer.(buttons := buttons, changed := true))
    case Sync => Put(c, Stages(c, step)).(pointer := c.pointer.(changed := false))
    case Change(report) =>
      var put := Put(c, Stages(c, step));
      if report.Keyboard? then put.(keyboard := report.rest)
      else if report.Consumer? then put.(consumer := report.rest)
      else put
    case Increment =>
      if c.uncounted > 0 then c.(uncounted := c.uncounted - 1, staged := (c.staged + 1) % COUNTER_TURN) else c
    case Latch => if c.relay then c.(idle := Some(Idle([Keyboard(c.keyboard), Consumer(c.consumer)], c.staged))) else c
    case Refresh => c.(pointer := c.pointer.(refresh := true))
    case LatchControl(kind, bytes) => if kind < |c.control| then c.(control := c.control[kind := Some(bytes)]) else c
    case Poll(accepted) => PollOnce(c, accepted).0
  }

  function Wrote(c: Central, step: Step): Option<Written>
    requires c.pointer.Shaped()
  {
    if step.Poll? then PollOnce(c, step.accepted).1 else None
  }
}
