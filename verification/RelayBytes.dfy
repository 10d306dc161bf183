/** Relay payloads on the wire: whole HID reports back to back, split again by their ids
    (src/esb_hid_relay_peripheral.c:128-136, 155-179, src/esb_hid_relay_pointer.h:16-19). */
module RelayBytes {
  import opened Common
  import opened Layout
  import opened RelayReports
  import Keepalive

  const BUTTONS_OFFSET := 1
  const MOTION_OFFSET := 2

  // ---- sixteen-bit totals ----

  function Unsigned(x: I16): nat { if x < 0 then x as int + 0x1_0000 else x as int }

  function Signed(x: nat): I16
    requires x < 0x1_0000
  {
    (if x < 0x8000 then x else x - 0x1_0000) as I16
  }

  function PutLe16(x: I16): (b: seq<Byte>)
    ensures |b| == 2
  {
    LeBytes(Unsigned(x), 2)
  }

  function GetLe16(b: seq<Byte>, at: nat): I16
    requires at + 2 <= |b|
  {
    Signed(Keepalive.U16Of(b[at..at + 2]) as int)
  }

  lemma {:induction false} Le16RoundTrip(x: I16, b: seq<Byte>, at: nat)
    requires at + 2 <= |b| && b[at..at + 2] == PutLe16(x)
    ensures GetLe16(b, at) == x
  {
    Keepalive.PowTwo();
    LeValueOfBytes(Unsigned(x), 2);
  }

  // ---- one report ----

  function PutTotals(totals: seq<I16>): (b: seq<Byte>)
    ensures |b| == 2 * |totals|
    ensures forall a :: 0 <= a < |totals| ==> b[2 * a..2 * a + 2] == PutLe16(totals[a])
  {
    if totals == [] then []
    else
      var init := PutTotals(totals[..|totals| - 1]);
      assert forall a :: 0 <= a < |totals| - 1 ==>
          (init + PutLe16(totals[|totals| - 1]))[2 * a..2 * a + 2] == init[2 * a..2 * a + 2];
      init + PutLe16(totals[|totals| - 1])
  }

  /** Axis totals of the first `n` axes. */
  function GetTotals(b: seq<Byte>, n: nat): (t: seq<I16>)
    requires MOTION_OFFSET + 2 * n <= |b|
    ensures |t| == n
    ensures forall a :: 0 <= a < n ==> t[a] == GetLe16(b, MOTION_OFFSET + 2 * a)
  {
    if n == 0 then [] else GetTotals(b, n - 1) + [GetLe16(b, MOTION_OFFSET + 2 * (n - 1))]
  }

  function Put(sizes: Sizes, r: Report): (b: seq<Byte>)
    ensures r.Mouse? && |r.body.totals| == AXES ==> |b| == POINTER_LENGTH
    ensures r.Keyboard? || r.Consumer? ==> |b| == Length(r)
  {
    match r
    case Mouse(body) => [sizes.mouseId, body.buttons] + PutTotals(body.totals)
    case Keyboard(rest) => [sizes.keyboardId] + rest
    case Consumer(rest) => [sizes.consumerId] + rest
    case Command(bytes) => bytes
  }

  /** 0 for an unknown id. */
  function ReportLength(sizes: Sizes, id: Byte): nat {
    if id == sizes.mouseId then POINTER_LENGTH
    else if id == sizes.keyboardId then sizes.keyboardLength
    else if id == sizes.consumerId then sizes.consumerLength
    else 0
  }

  /** The whole report that `b` is. */
  function Get(sizes: Sizes, b: seq<Byte>): (r: Report)
    requires b != [] && |b| == ReportLength(sizes, b[0]) > 0
    ensures IsHid(sizes, r) || b[0] !in {sizes.mouseId, sizes.keyboardId, sizes.consumerId}
  {
    if b[0] == sizes.mouseId then Mouse(Body(b[BUTTONS_OFFSET], GetTotals(b, AXES)))
    else if b[0] == sizes.keyboardId then Keyboard(b[1..])
    else Consumer(b[1..])
  }

  lemma {:induction false} MouseRoundTrip(sizes: Sizes, body: Body)
    requires |body.totals| == AXES
    ensures GetTotals(Put(sizes, Mouse(body)), AXES) == body.totals
  {
    var b := Put(sizes, Mouse(body));
    forall a | 0 <= a < AXES ensures GetLe16(b, MOTION_OFFSET + 2 * a) == body.totals[a] {
      assert b[MOTION_OFFSET + 2 * a..MOTION_OFFSET + 2 * a + 2] == PutTotals(body.totals)[2 * a..2 * a + 2];
      Le16RoundTrip(body.totals[a], b, MOTION_OFFSET + 2 * a);
    }
  }

  lemma {:induction false} ReportRoundTrip(sizes: Sizes, r: Report)
    requires sizes.Valid() && IsHid(sizes, r)
    ensures var b := Put(sizes, r);
      && |b| == Length(r) > 0 && ReportLength(sizes, b[0]) == |b|
      && Get(sizes, b) == r
  {
    if r.Mouse? { MouseRoundTrip(sizes, r.body); }
  }

  // ---- a payload ----

  function Serialize(sizes: Sizes, rs: seq<Report>): seq<Byte> {
    if rs == [] then [] else Serialize(sizes, rs[..|rs| - 1]) + Put(sizes, rs[|rs| - 1])
  }

  /** A whole report stands at `offset`. */
  predicate WholeAt(sizes: Sizes, b: seq<Byte>, offset: nat) {
    offset < |b| && 0 < ReportLength(sizes, b[offset]) <= |b| - offset
  }

  /** Reports from `offset` on, up to the first that is unknown or cut short. */
  function Split(sizes: Sizes, b: seq<Byte>, offset: nat): seq<Report>
    requires offset <= |b|
    decreases |b| - offset
  {
    if !WholeAt(sizes, b, offset) then []
    else
      var next := offset + ReportLength(sizes, b[offset]);
      [Get(sizes, b[offset..next])] + Split(sizes, b, next)
  }

  lemma {:induction false} SplitAt(sizes: Sizes, before: seq<Byte>, b: seq<Byte>, offset: nat)
    requires offset <= |b|
    ensures Split(sizes, before + b, |before| + offset) == Split(sizes, b, offset)
    decreases |b| - offset
  {
    var all := before + b;
    if offset < |b| {
      assert all[|before| + offset] == b[offset];
      if WholeAt(sizes, b, offset) {
        var next := offset + ReportLength(sizes, b[offset]);
        assert all[|before| + offset..|before| + next] == b[offset..next];
        SplitAt(sizes, before, b, next);
      }
    }
  }

  lemma {:induction false} SerializeFirst(sizes: Sizes, rs: seq<Report>)
    requires rs != []
    ensures Serialize(sizes, rs) == Put(sizes, rs[0]) + Serialize(sizes, rs[1..])
  {
    if |rs| == 1 {
      assert rs[..0] == [] && rs[1..] == [];
      assert Serialize(sizes, rs) == [] + Put(sizes, rs[0]);
    } else {
      SerializeFirst(sizes, rs[..|rs| - 1]);
      assert rs[..|rs| - 1][1..] == rs[1..][..|rs| - 2];
    }
  }

  lemma {:induction false} SplitHead(sizes: Sizes, r: Report, tail: seq<Byte>)
    requires sizes.Valid() && IsHid(sizes, r)
    ensures Split(sizes, Put(sizes, r) + tail, 0) == [r] + Split(sizes, tail, 0)
  {
    var head := Put(sizes, r);
    ReportRoundTrip(sizes, r);
    var b := head + tail;
    assert b[0] == head[0] && b[0..|head|] == head;
    SplitAt(sizes, head, tail, 0);
    assert WholeAt(sizes, b, 0);
  }

  /** The dongle splits a payload into exactly the reports that were packed. */
  lemma {:induction false} SplitSerialized(sizes: Sizes, rs: seq<Report>)
    requires sizes.Valid() && AllHid(sizes, rs)
    ensures Split(sizes, Serialize(sizes, rs), 0) == rs
    ensures |Serialize(sizes, rs)| == TotalLength(rs)
    decreases |rs|
  {
    if rs != [] {
      SerializeFirst(sizes, rs);
      SplitSerialized(sizes, rs[1..]);
      SplitHead(sizes, rs[0], Serialize(sizes, rs[1..]));
      ReportRoundTrip(sizes, rs[0]);
      LengthFirst(rs);
      assert [rs[0]] + rs[1..] == rs;
    }
  }

  lemma {:induction false} LengthFirst(rs: seq<Report>)
    requires rs != []
    ensures TotalLength(rs) == Length(rs[0]) + TotalLength(rs[1..])
  {
    assert rs == [rs[0]] + rs[1..];
    LengthAppend([rs[0]], rs[1..]);
    assert [rs[0]][..0] == [] && TotalLength([]) == 0;
  }

  // ---- the layout ----

  /** Sixteen bits, the low byte first. */
  function Le16(b: seq<Byte>, at: nat): nat
    requires at + 1 < |b|
  {
    b[at] as nat + 256 * b[at + 1] as nat
  }

  lemma {:induction false} PutLe16Is(x: I16)
    ensures Le16(PutLe16(x), 0) == if x < 0 then x as int + 0x1_0000 else x as int
  {
    var u := Unsigned(x);
    assert LeBytes(u / 256, 1) == [(u / 256 % 256) as Byte] + LeBytes(u / 256 / 256, 0);
    assert LeBytes(u, 2) == [(u % 256) as Byte] + LeBytes(u / 256, 1);
  }

  /** A pointer report on the wire: its id, its buttons, then the four totals, each low byte first. */
  lemma {:induction false} MouseLayout(sizes: Sizes, body: Body)
    requires |body.totals| == AXES
    ensures var b := Put(sizes, Mouse(body));
      && |b| == 10 && b[0] == sizes.mouseId && b[1] == body.buttons
      && forall a :: 0 <= a < AXES ==>
           Le16(b, 2 + 2 * a) == if body.totals[a] < 0 then body.totals[a] as int + 0x1_0000 else body.totals[a] as int
  {
    var b := Put(sizes, Mouse(body));
    forall a | 0 <= a < AXES ensures Le16(b, 2 + 2 * a) == Le16(PutLe16(body.totals[a]), 0) {
      assert PutTotals(body.totals)[2 * a..2 * a + 2] == PutLe16(body.totals[a]);
      assert b[2 + 2 * a] == PutLe16(body.totals[a])[0] && b[2 + 2 * a + 1] == PutLe16(body.totals[a])[1];
    }
    forall a | 0 <= a < AXES ensures Le16(PutLe16(body.totals[a]), 0)
        == if body.totals[a] < 0 then body.totals[a] as int + 0x1_0000 else body.totals[a] as int
    {
      PutLe16Is(body.totals[a]);
    }
  }

  /** A keyboard or consumer report: its id, then its bytes as they are. */
  lemma {:induction false} StateLayout(sizes: Sizes, r: Report)
    requires r.Keyboard? || r.Consumer?
    ensures var b := Put(sizes, r);
      |b| == 1 + |r.rest| && b[0] == (if r.Keyboard? then sizes.keyboardId else sizes.consumerId) && b[1..] == r.rest
  {
  }

  // ---- malformed payloads ----

  /** The length a report id stands for: ten bytes, ZMK's two sizes, or none. */
  lemma {:induction false} LengthOf(sizes: Sizes, id: Byte)
    requires sizes.Valid()
    ensures ReportLength(sizes, id) == if id == sizes.mouseId then 10
                                       else if id == sizes.keyboardId then sizes.keyboardLength
                                       else if id == sizes.consumerId then sizes.consumerLength
                                       else 0
    ensures ReportLength(sizes, id) == 0 <==> id !in {sizes.mouseId, sizes.keyboardId, sizes.consumerId}
  {
  }

  lemma {:induction false} SerialFirst(sizes: Sizes, rs: seq<Report>, tail: seq<Byte>)
    requires rs != []
    ensures Serialize(sizes, rs) + tail == Put(sizes, rs[0]) + (Serialize(sizes, rs[1..]) + tail)
  {
    SerializeFirst(sizes, rs);
    Regroup(Put(sizes, rs[0]), Serialize(sizes, rs[1..]), tail);
  }

  lemma {:induction false} FirstOn(rs: seq<Report>, after: seq<Report>)
    requires rs != []
    ensures [rs[0]] + (rs[1..] + after) == rs + after
  {
  }

  /** Whatever follows the reports packed is split on its own. */
  lemma {:induction false} SplitOn(sizes: Sizes, rs: seq<Report>, tail: seq<Byte>) returns (b: seq<Byte>)
    requires sizes.Valid() && AllHid(sizes, rs)
    ensures b == Serialize(sizes, rs) + tail && Split(sizes, b, 0) == rs + Split(sizes, tail, 0)
    decreases |rs|
  {
    if rs == [] {
      b := tail;
    } else {
      var rest := SplitOn(sizes, rs[1..], tail);
      b := Put(sizes, rs[0]) + rest;
      SplitHead(sizes, rs[0], rest);
      SerialFirst(sizes, rs, tail);
      FirstOn(rs, Split(sizes, tail, 0));
    }
  }

  /** From the first byte that is no report's id, or whose report is cut short, nothing more is delivered. */
  lemma {:induction false} SplitStops(sizes: Sizes, rs: seq<Report>, tail: seq<Byte>)
    requires sizes.Valid() && AllHid(sizes, rs)
    requires tail != [] ==> tail[0] !in {sizes.mouseId, sizes.keyboardId, sizes.consumerId}
                            || ReportLength(sizes, tail[0]) > |tail|
    ensures Split(sizes, Serialize(sizes, rs) + tail, 0) == rs
  {
    var b := SplitOn(sizes, rs, tail);
    assert Split(sizes, tail, 0) == [] && rs + [] == rs;
  }
}
