/** The uplink keepalive's variable layout (src/esb_keepalive.c:19-148). */
module Keepalive {
  import opened Common
  import opened Layout

  const TAG: Byte := 0xFF
  const BITMAP_OFFSET := 2
  const BITMAP_BYTES := 8
  const BATTERY_OFFSET := 10
  const LINK_COST_OFFSET := 11
  const HELD_COUNT_OFFSET := 12
  const HELD_OFFSET := 13
  const HELD_BYTES := 3
  const MOTION_BYTES := 4
  const SENSOR_BYTES := 8
  const BASE_LENGTH := 14
  const PACKET_MAX := 255

  datatype HeldKey = HeldKey(reg: Byte, code: U16)
  datatype MotionTotal = MotionTotal(reg: Byte, code: Byte, shortTotal: I16)

  datatype Snapshot = Snapshot(state: Byte, linkCost: Byte, battery: Byte, bitmap: seq<Byte>, held: seq<HeldKey>,
                               motions: seq<MotionTotal>, sensors: seq<I64>)
  {
    predicate Valid() { |bitmap| == BITMAP_BYTES && |held| <= 255 && |motions| <= 255 && |sensors| <= 255 }

    function Length(): nat {
      HELD_OFFSET + HELD_BYTES * |held| + 1 + MOTION_BYTES * |motions| + SENSOR_BYTES * |sensors|
    }
  }

  // ---- entries ----

  function HeldEncode(k: HeldKey): seq<Byte> { [k.reg] + LeBytes(k.code as int, 2) }

  function HeldDecode(b: seq<Byte>): HeldKey {
    if |b| != HELD_BYTES then HeldKey(0, 0) else HeldKey(b[0], U16Of(b[1..]))
  }

  function MotionEncode(m: MotionTotal): seq<Byte> {
    [m.reg, m.code] + LeBytes(if m.shortTotal < 0 then m.shortTotal as int + 0x1_0000 else m.shortTotal as int, 2)
  }

  function MotionDecode(b: seq<Byte>): MotionTotal {
    if |b| != MOTION_BYTES then MotionTotal(0, 0, 0)
    else
      var x := U16Of(b[2..]) as int;
      MotionTotal(b[0], b[1], (if x < 0x8000 then x else x - 0x1_0000) as I16)
  }

  function SensorEncode(t: I64): seq<Byte> {
    LeBytes(if t < 0 then t as int + 0x1_0000_0000_0000_0000 else t as int, 8)
  }

  function SensorDecode(b: seq<Byte>): I64 {
    if |b| != SENSOR_BYTES then 0
    else
      PowEight();
      var x := LeValue(b);
      (if x < 0x8000_0000_0000_0000 then x else x - 0x1_0000_0000_0000_0000) as I64
  }

  function U16Of(b: seq<Byte>): U16
    requires |b| == 2
  {
    PowTwo();
    LeValue(b) as U16
  }

  lemma {:induction false} PowTwo()
    ensures Pow256(2) == 0x1_0000
  {
    assert Pow256(1) == 256 * Pow256(0);
  }

  lemma {:induction false} PowEight()
    ensures Pow256(8) == 0x1_0000_0000_0000_0000
  {
    PowTwo();
    assert Pow256(3) == 256 * Pow256(2);
    assert Pow256(4) == 256 * Pow256(3);
    assert Pow256(5) == 256 * Pow256(4);
    assert Pow256(6) == 256 * Pow256(5);
    assert Pow256(7) == 256 * Pow256(6);
  }

  const HELD: Entry<HeldKey> := Entry(HELD_BYTES, HeldEncode, HeldDecode)
  const MOTION: Entry<MotionTotal> := Entry(MOTION_BYTES, MotionEncode, MotionDecode)
  const SENSOR: Entry<I64> := Entry(SENSOR_BYTES, SensorEncode, SensorDecode)

  lemma {:induction false} HeldExact()
    ensures Exact(HELD)
  {
    PowTwo();
    forall k: HeldKey
      ensures |HeldEncode(k)| == HELD_BYTES && HeldDecode(HeldEncode(k)) == k
    {
      LeValueOfBytes(k.code as int, 2);
      assert HeldEncode(k)[1..] == LeBytes(k.code as int, 2);
    }
    forall b: seq<Byte> | |b| == HELD_BYTES
      ensures HeldEncode(HeldDecode(b)) == b
    {
      LeBytesOfValue(b[1..]);
      assert b == [b[0]] + b[1..];
    }
  }

  lemma {:induction false} MotionExact()
    ensures Exact(MOTION)
  {
    PowTwo();
    forall m: MotionTotal
      ensures |MotionEncode(m)| == MOTION_BYTES && MotionDecode(MotionEncode(m)) == m
    {
      var x := if m.shortTotal < 0 then m.shortTotal as int + 0x1_0000 else m.shortTotal as int;
      LeValueOfBytes(x, 2);
      assert MotionEncode(m)[2..] == LeBytes(x, 2);
    }
    forall b: seq<Byte> | |b| == MOTION_BYTES
      ensures MotionEncode(MotionDecode(b)) == b
    {
      LeBytesOfValue(b[2..]);
      assert b == [b[0], b[1]] + b[2..];
    }
  }

  lemma {:induction false} SensorExact()
    ensures Exact(SENSOR)
  {
    PowEight();
    forall t: I64
      ensures |SensorEncode(t)| == SENSOR_BYTES && SensorDecode(SensorEncode(t)) == t
    {
      LeValueOfBytes(if t < 0 then t as int + 0x1_0000_0000_0000_0000 else t as int, 8);
    }
    forall b: seq<Byte> | |b| == SENSOR_BYTES
      ensures SensorEncode(SensorDecode(b)) == b
    {
      LeBytesOfValue(b);
    }
  }

  // ---- the packet ----

  function Head(s: Snapshot): seq<Byte>
    requires s.Valid()
  {
    [TAG, s.state] + s.bitmap + [s.battery, s.linkCost, |s.held| as Byte]
  }

  function Encode(s: Snapshot): seq<Byte>
    requires s.Valid()
  {
    Head(s) + Entries(HeldEncode, s.held) + [|s.motions| as Byte] + Entries(MotionEncode, s.motions)
      + Entries(SensorEncode, s.sensors)
  }

  function HeldCount(data: seq<Byte>): nat
    requires |data| >= BASE_LENGTH
  {
    data[HELD_COUNT_OFFSET] as nat
  }

  function MotionCountOffset(data: seq<Byte>): nat
    requires |data| >= BASE_LENGTH
  {
    HELD_OFFSET + HELD_BYTES * HeldCount(data)
  }

  function MotionCount(data: seq<Byte>): nat
    requires |data| >= BASE_LENGTH && MotionCountOffset(data) < |data|
  {
    data[MotionCountOffset(data)] as nat
  }

  function SensorOffset(data: seq<Byte>): nat
    requires |data| >= BASE_LENGTH && MotionCountOffset(data) < |data|
  {
    MotionCountOffset(data) + 1 + MOTION_BYTES * MotionCount(data)
  }

  predicate Matches(data: seq<Byte>) {
    && |data| >= BASE_LENGTH
    && data[0] == TAG
    && MotionCountOffset(data) < |data|
    && SensorOffset(data) <= |data|
    && (|data| - SensorOffset(data)) % SENSOR_BYTES == 0
  }

  /** The result is one byte wide in the source. */
  function SensorCount(data: seq<Byte>): nat
    requires |data| >= BASE_LENGTH
  {
    if |data| <= MotionCountOffset(data) || |data| < SensorOffset(data) then 0
    else (|data| - SensorOffset(data)) / SENSOR_BYTES % 256
  }

  /** Each accessor takes an index below the packet's own count; that keeps it inside the packet. */
  function HeldAt(data: seq<Byte>, index: nat): HeldKey
    requires Matches(data) && index < HeldCount(data)
  {
    ReadAt(HELD, data, HELD_OFFSET, index)
  }

  function MotionAt(data: seq<Byte>, index: nat): MotionTotal
    requires Matches(data) && index < MotionCount(data)
  {
    ReadAt(MOTION, data, MotionCountOffset(data) + 1, index)
  }

  function SensorAt(data: seq<Byte>, index: nat): I64
    requires Matches(data) && |data| <= PACKET_MAX && index < SensorCount(data)
  {
    ReadAt(SENSOR, data, SensorOffset(data), index)
  }

  /** Everything a receiver can read out of a packet. */
  function Read(data: seq<Byte>): (s: Snapshot)
    requires Matches(data) && |data| <= PACKET_MAX
    ensures |s.held| == HeldCount(data) && |s.motions| == MotionCount(data) && |s.sensors| == SensorCount(data)
  {
    Snapshot(data[1], data[LINK_COST_OFFSET], data[BATTERY_OFFSET],
             data[BITMAP_OFFSET..BITMAP_OFFSET + BITMAP_BYTES],
             ReadAll(HELD, data, HELD_OFFSET, HeldCount(data)),
             ReadAll(MOTION, data, MotionCountOffset(data) + 1, MotionCount(data)),
             ReadAll(SENSOR, data, SensorOffset(data), SensorCount(data)))
  }

  lemma {:induction false} HeldAccessorReads(data: seq<Byte>, index: nat)
    requires Matches(data) && |data| <= PACKET_MAX && index < HeldCount(data)
    ensures HeldAt(data, index) == Read(data).held[index]
  {
    ReadAllAt(HELD, data, HELD_OFFSET, HeldCount(data), index);
  }

  lemma {:induction false} MotionAccessorReads(data: seq<Byte>, index: nat)
    requires Matches(data) && |data| <= PACKET_MAX && index < MotionCount(data)
    ensures MotionAt(data, index) == Read(data).motions[index]
  {
    ReadAllAt(MOTION, data, MotionCountOffset(data) + 1, MotionCount(data), index);
  }

  lemma {:induction false} SensorAccessorReads(data: seq<Byte>, index: nat)
    requires Matches(data) && |data| <= PACKET_MAX && index < SensorCount(data)
    ensures SensorAt(data, index) == Read(data).sensors[index]
  {
    ReadAllAt(SENSOR, data, SensorOffset(data), SensorCount(data), index);
  }

  // ---- one part of the packet at a time ----

  lemma {:induction false} HeldPart(xs: seq<HeldKey>, before: seq<Byte>, after: seq<Byte>)
    ensures |Entries(HeldEncode, xs)| == HELD_BYTES * |xs|
    ensures ReadAll(HELD, before + Entries(HeldEncode, xs) + after, |before|, |xs|) == xs
  {
    HeldExact();
    EntriesLength(HELD, xs);
    ReadWritten(HELD, xs, before, after);
  }

  lemma {:induction false} MotionPart(xs: seq<MotionTotal>, before: seq<Byte>, after: seq<Byte>)
    ensures |Entries(MotionEncode, xs)| == MOTION_BYTES * |xs|
    ensures ReadAll(MOTION, before + Entries(MotionEncode, xs) + after, |before|, |xs|) == xs
  {
    MotionExact();
    EntriesLength(MOTION, xs);
    ReadWritten(MOTION, xs, before, after);
  }

  lemma {:induction false} SensorPart(xs: seq<I64>, before: seq<Byte>)
    ensures |Entries(SensorEncode, xs)| == SENSOR_BYTES * |xs|
    ensures ReadAll(SENSOR, before + Entries(SensorEncode, xs), |before|, |xs|) == xs
  {
    SensorExact();
    EntriesLength(SENSOR, xs);
    ReadWritten(SENSOR, xs, before, []);
    assert before + Entries(SensorEncode, xs) + [] == before + Entries(SensorEncode, xs);
  }

  lemma {:induction false} HeldWritten(data: seq<Byte>, offset: nat, n: nat)
    requires offset + HELD_BYTES * n <= |data|
    ensures Entries(HeldEncode, ReadAll(HELD, data, offset, n)) == data[offset..offset + HELD_BYTES * n]
  {
    HeldExact();
    WrittenRead(HELD, data, offset, n);
  }

  lemma {:induction false} MotionsWritten(data: seq<Byte>, offset: nat, n: nat)
    requires offset + MOTION_BYTES * n <= |data|
    ensures Entries(MotionEncode, ReadAll(MOTION, data, offset, n)) == data[offset..offset + MOTION_BYTES * n]
  {
    MotionExact();
    WrittenRead(MOTION, data, offset, n);
  }

  lemma {:induction false} SensorsWritten(data: seq<Byte>, offset: nat, n: nat)
    requires offset + SENSOR_BYTES * n <= |data|
    ensures Entries(SensorEncode, ReadAll(SENSOR, data, offset, n)) == data[offset..offset + SENSOR_BYTES * n]
  {
    SensorExact();
    WrittenRead(SENSOR, data, offset, n);
  }

  lemma {:induction false} Assemble(head: seq<Byte>, held: seq<Byte>, count: Byte, motions: seq<Byte>,
                                    sensors: seq<Byte>)
    ensures var data := head + held + [count] + motions + sensors;
      && data[..|head|] == head
      && data[|head| + |held|] == count
      && data == head + held + ([count] + motions + sensors)
      && data == (head + held + [count]) + motions + sensors
      && data == (head + held + [count] + motions) + sensors
  {
  }

  lemma {:induction false} PartLengths(s: Snapshot)
    ensures |Entries(HeldEncode, s.held)| == HELD_BYTES * |s.held|
    ensures |Entries(MotionEncode, s.motions)| == MOTION_BYTES * |s.motions|
    ensures |Entries(SensorEncode, s.sensors)| == SENSOR_BYTES * |s.sensors|
  {
    HeldPart(s.held, [], []);
    MotionPart(s.motions, [], []);
    SensorPart(s.sensors, []);
  }

  lemma {:induction false} EncodeOffsets(s: Snapshot)
    requires s.Valid()
    ensures |Encode(s)| == s.Length() && Encode(s)[..HELD_OFFSET] == Head(s)
    ensures Encode(s)[0] == TAG && HeldCount(Encode(s)) == |s.held|
    ensures MotionCountOffset(Encode(s)) == HELD_OFFSET + HELD_BYTES * |s.held| < |Encode(s)|
    ensures MotionCount(Encode(s)) == |s.motions|
  {
    PartLengths(s);
    var data, head := Encode(s), Head(s);
    Assemble(head, Entries(HeldEncode, s.held), |s.motions| as Byte, Entries(MotionEncode, s.motions),
             Entries(SensorEncode, s.sensors));
    assert data[HELD_COUNT_OFFSET] == data[..HELD_OFFSET][HELD_COUNT_OFFSET];
    assert data[0] == data[..HELD_OFFSET][0];
  }

  lemma {:induction false} WholeSensors(n: nat)
    requires n <= 255
    ensures SENSOR_BYTES * n % SENSOR_BYTES == 0 && SENSOR_BYTES * n / SENSOR_BYTES % 256 == n
  {
  }

  lemma {:induction false} EncodeLayout(s: Snapshot)
    requires s.Valid()
    ensures |Encode(s)| == s.Length() && Matches(Encode(s))
    ensures SensorOffset(Encode(s)) == |Encode(s)| - SENSOR_BYTES * |s.sensors|
    ensures SensorCount(Encode(s)) == |s.sensors|
  {
    EncodeOffsets(s);
    WholeSensors(|s.sensors|);
  }

  lemma {:induction false} ReadHeld(s: Snapshot)
    requires s.Valid() && HELD_OFFSET + HELD_BYTES * |s.held| <= |Encode(s)|
    ensures ReadAll(HELD, Encode(s), HELD_OFFSET, |s.held|) == s.held
  {
    var held, motions, sensors := Entries(HeldEncode, s.held), Entries(MotionEncode, s.motions), Entries(SensorEncode,
                                                                                                         s.sensors);
    Assemble(Head(s), held, |s.motions| as Byte, motions, sensors);
    HeldPart(s.held, Head(s), [|s.motions| as Byte] + motions + sensors);
  }

  lemma {:induction false} ReadMotions(s: Snapshot, offset: nat)
    requires s.Valid() && offset == HELD_OFFSET + HELD_BYTES * |s.held| + 1
    requires offset + MOTION_BYTES * |s.motions| <= |Encode(s)|
    ensures ReadAll(MOTION, Encode(s), offset, |s.motions|) == s.motions
  {
    var held, motions, sensors := Entries(HeldEncode, s.held), Entries(MotionEncode, s.motions), Entries(SensorEncode,
                                                                                                         s.sensors);
    Assemble(Head(s), held, |s.motions| as Byte, motions, sensors);
    PartLengths(s);
    MotionPart(s.motions, Head(s) + held + [|s.motions| as Byte], sensors);
  }

  lemma {:induction false} ReadSensors(s: Snapshot, offset: nat)
    requires s.Valid() && offset == HELD_OFFSET + HELD_BYTES * |s.held| + 1 + MOTION_BYTES * |s.motions|
    requires offset + SENSOR_BYTES * |s.sensors| <= |Encode(s)|
    ensures ReadAll(SENSOR, Encode(s), offset, |s.sensors|) == s.sensors
  {
    var held, motions, sensors := Entries(HeldEncode, s.held), Entries(MotionEncode, s.motions), Entries(SensorEncode,
                                                                                                         s.sensors);
    Assemble(Head(s), held, |s.motions| as Byte, motions, sensors);
    PartLengths(s);
    SensorPart(s.sensors, Head(s) + held + [|s.motions| as Byte] + motions);
  }

  lemma {:induction false} HeadFields(s: Snapshot, data: seq<Byte>)
    requires s.Valid() && |data| >= BASE_LENGTH && data[..HELD_OFFSET] == Head(s)
    ensures data[1] == s.state && data[LINK_COST_OFFSET] == s.linkCost && data[BATTERY_OFFSET] == s.battery
    ensures data[BITMAP_OFFSET..BITMAP_OFFSET + BITMAP_BYTES] == s.bitmap
  {
    assert forall i :: 0 <= i < HELD_OFFSET ==> data[i] == data[..HELD_OFFSET][i];
  }

  /** Encode then read recovers the snapshot. */
  lemma {:induction false} ReadOfEncode(s: Snapshot)
    requires s.Valid() && s.Length() <= PACKET_MAX
    ensures |Encode(s)| <= PACKET_MAX && Matches(Encode(s)) && Read(Encode(s)) == s
  {
    EncodeLayout(s);
    EncodeOffsets(s);
    HeadFields(s, Encode(s));
    ReadLists(s);
    SameFields(Read(Encode(s)), s);
  }

  lemma {:induction false} ReadLists(s: Snapshot)
    requires s.Valid() && s.Length() <= PACKET_MAX
    ensures |Encode(s)| <= PACKET_MAX && Matches(Encode(s))
    ensures var r := Read(Encode(s)); r.held == s.held && r.motions == s.motions && r.sensors == s.sensors
  {
    EncodeOffsets(s);
    EncodeLayout(s);
    HeldBack(s);
    MotionsBack(s);
    SensorsBack(s);
  }

  lemma {:induction false} HeldBack(s: Snapshot)
    requires s.Valid() && |Encode(s)| == s.Length() <= PACKET_MAX && Matches(Encode(s))
    requires HeldCount(Encode(s)) == |s.held|
    ensures Read(Encode(s)).held == s.held
  {
    ReadHeld(s);
  }

  lemma {:induction false} MotionsBack(s: Snapshot)
    requires s.Valid() && |Encode(s)| == s.Length() <= PACKET_MAX && Matches(Encode(s))
    requires HeldCount(Encode(s)) == |s.held| && MotionCount(Encode(s)) == |s.motions|
    ensures Read(Encode(s)).motions == s.motions
  {
    ReadMotions(s, MotionCountOffset(Encode(s)) + 1);
    MotionsRead(Encode(s), MotionCountOffset(Encode(s)) + 1, s.motions);
  }

  lemma {:induction false} MotionsRead(data: seq<Byte>, offset: nat, motions: seq<MotionTotal>)
    requires Matches(data) && |data| <= PACKET_MAX
    requires offset == MotionCountOffset(data) + 1 && |motions| == MotionCount(data)
    requires offset + MOTION_BYTES * |motions| <= |data| && ReadAll(MOTION, data, offset, |motions|) == motions
    ensures Read(data).motions == motions
  {
  }

  lemma {:induction false} SensorsBack(s: Snapshot)
    requires s.Valid() && |Encode(s)| == s.Length() <= PACKET_MAX && Matches(Encode(s))
    requires HeldCount(Encode(s)) == |s.held| && MotionCount(Encode(s)) == |s.motions|
    requires SensorCount(Encode(s)) == |s.sensors|
    ensures Read(Encode(s)).sensors == s.sensors
  {
    ReadSensors(s, SensorOffset(Encode(s)));
  }

  lemma {:induction false} SameFields(a: Snapshot, b: Snapshot)
    requires a.state == b.state && a.linkCost == b.linkCost && a.battery == b.battery && a.bitmap == b.bitmap
    requires a.held == b.held && a.motions == b.motions && a.sensors == b.sensors
    ensures a == b
  {
  }

  lemma {:induction false} HeadOfRead(data: seq<Byte>)
    requires Matches(data) && |data| <= PACKET_MAX
    ensures Read(data).Valid() && Head(Read(data)) == data[..HELD_OFFSET]
  {
  }

  lemma {:induction false} HeldOfRead(data: seq<Byte>)
    requires Matches(data) && |data| <= PACKET_MAX
    ensures Entries(HeldEncode, Read(data).held) == data[HELD_OFFSET..MotionCountOffset(data)]
  {
    HeldWritten(data, HELD_OFFSET, HeldCount(data));
  }

  lemma {:induction false} MotionsOfRead(data: seq<Byte>)
    requires Matches(data) && |data| <= PACKET_MAX
    ensures Entries(MotionEncode, Read(data).motions) == data[MotionCountOffset(data) + 1..SensorOffset(data)]
  {
    MotionsWritten(data, MotionCountOffset(data) + 1, MotionCount(data));
  }

  lemma {:induction false} SensorsOfRead(data: seq<Byte>)
    requires Matches(data) && |data| <= PACKET_MAX
    ensures Entries(SensorEncode, Read(data).sensors) == data[SensorOffset(data)..]
  {
    SensorsFill(|data|, SensorOffset(data));
    SensorsWritten(data, SensorOffset(data), SensorCount(data));
  }

  lemma {:induction false} SensorsFill(length: nat, offset: nat)
    requires offset <= length <= PACKET_MAX && (length - offset) % SENSOR_BYTES == 0
    ensures offset + SENSOR_BYTES * ((length - offset) / SENSOR_BYTES % 256) == length
  {
  }

  lemma {:induction false} JoinParts(s: Snapshot, data: seq<Byte>, m: nat, o: nat)
    requires s.Valid() && HELD_OFFSET <= m < o <= |data|
    requires Head(s) == data[..HELD_OFFSET] && |s.motions| == data[m] as int
    requires Entries(HeldEncode, s.held) == data[HELD_OFFSET..m]
    requires Entries(MotionEncode, s.motions) == data[m + 1..o]
    requires Entries(SensorEncode, s.sensors) == data[o..]
    ensures Encode(s) == data
  {
    Rejoin(data, m, o);
  }

  /** Every packet of at most 255 bytes that matches is the encoding of what is read from it. */
  lemma {:induction false} EncodeOfRead(data: seq<Byte>)
    requires Matches(data) && |data| <= PACKET_MAX
    ensures Read(data).Valid() && Encode(Read(data)) == data
  {
    PartsOfRead(data, Read(data), MotionCountOffset(data), SensorOffset(data));
  }

  lemma {:induction false} PartsOfRead(data: seq<Byte>, s: Snapshot, m: nat, o: nat)
    requires Matches(data) && |data| <= PACKET_MAX && s == Read(data)
    requires m == MotionCountOffset(data) && o == SensorOffset(data)
    ensures s.Valid() && Encode(s) == data
  {
    HeadOfRead(data);
    HeldOfRead(data);
    MotionsOfRead(data);
    SensorsOfRead(data);
    JoinParts(s, data, m, o);
  }

  lemma {:induction false} Rejoin(data: seq<Byte>, m: nat, o: nat)
    requires HELD_OFFSET <= m < o <= |data|
    ensures data[..HELD_OFFSET] + data[HELD_OFFSET..m] + [data[m]] + data[m + 1..o] + data[o..] == data
  {
  }

  /** The codec is a bijection between snapshots that fit a packet and packets that match. */
  lemma {:induction false} Bijection(data: seq<Byte>, s: Snapshot)
    requires |data| <= PACKET_MAX && s.Valid()
    ensures Encode(s) == data <==> Matches(data) && Read(data) == s
  {
    if Matches(data) {
      EncodeOfRead(data);
    }
    if Encode(s) == data {
      EncodeLayout(s);
      ReadOfEncode(s);
    }
  }

  // ---- the encoder loops ----

  method PutBytes(out: array<Byte>, offset: nat, bytes: seq<Byte>)
    requires offset + |bytes| <= out.Length
    modifies out
    ensures out[..offset + |bytes|] == old(out[..offset]) + bytes
    ensures forall j :: offset + |bytes| <= j < out.Length ==> out[j] == old(out[j])
  {
    for i := 0 to |bytes|
      invariant out[..offset + i] == old(out[..offset]) + bytes[..i]
      invariant forall j :: offset + i <= j < out.Length ==> out[j] == old(out[j])
    {
      out[offset + i] := bytes[i];
      assert out[..offset + i + 1] == out[..offset + i] + [bytes[i]];
    }
  }

  /** Writes `xs` at `offset`, entry by entry, and returns the offset behind them. */
  method PutEntries<T>(out: array<Byte>, offset: nat, encode: T -> seq<Byte>, xs: seq<T>) returns (end: nat)
    requires offset + |Entries(encode, xs)| <= out.Length
    modifies out
    ensures end == offset + |Entries(encode, xs)|
    ensures out[..end] == old(out[..offset]) + Entries(encode, xs)
    ensures forall j :: end <= j < out.Length ==> out[j] == old(out[j])
  {
    end := offset;
    for i := 0 to |xs|
      invariant end == offset + |Entries(encode, xs[..i])| <= out.Length
      invariant out[..end] == old(out[..offset]) + Entries(encode, xs[..i])
      invariant forall j :: end <= j < out.Length ==> out[j] == old(out[j])
    {
      EntriesPrefix(encode, xs, i + 1);
      assert xs[..i + 1][..i] == xs[..i];
      PutBytes(out, end, encode(xs[i]));
      end := end + |encode(xs[i])|;
    }
    assert xs[..|xs|] == xs;
  }

  lemma {:induction false} EntriesPrefix<T>(encode: T -> seq<Byte>, xs: seq<T>, n: nat)
    requires n <= |xs|
    ensures |Entries(encode, xs[..n])| <= |Entries(encode, xs)|
  {
    if n < |xs| {
      var init := xs[..|xs| - 1];
      EntriesPrefix(encode, init, n);
      assert init[..n] == xs[..n];
    } else {
      assert xs[..n] == xs;
    }
  }

  lemma {:induction false} EncodedLength(s: Snapshot)
    requires s.Valid()
    ensures |Head(s)| == HELD_OFFSET
    ensures |Encode(s)| == s.Length() == HELD_OFFSET + |Entries(HeldEncode, s.held)| + 1
            + |Entries(MotionEncode, s.motions)| + |Entries(SensorEncode, s.sensors)|
  {
    EncodeOffsets(s);
  }

  /** Returns 0 when `out` is too small. */
  method EncodeInto(out: array<Byte>, s: Snapshot) returns (length: nat)
    requires s.Valid()
    modifies out
    ensures length == if out.Length < s.Length() then 0 else |Encode(s)|
    ensures length == 0 ==> out[..] == old(out[..])
    ensures length > 0 ==> length <= out.Length && out[..length] == Encode(s)
    ensures forall j :: length <= j < out.Length ==> out[j] == old(out[j])
  {
    if out.Length < s.Length() {
      return 0;
    }
    EncodedLength(s);
    length := PutPacket(out, s);
  }

  method PutPacket(out: array<Byte>, s: Snapshot) returns (length: nat)
    requires s.Valid() && |Head(s)| == HELD_OFFSET
    requires HELD_OFFSET + |Entries(HeldEncode, s.held)| + 1 + |Entries(MotionEncode, s.motions)|
             + |Entries(SensorEncode, s.sensors)| <= out.Length
    modifies out
    ensures length == |Encode(s)| <= out.Length && out[..length] == Encode(s)
    ensures forall j :: length <= j < out.Length ==> out[j] == old(out[j])
  {
    var end := PutHeld(out, Head(s), s.held, |s.motions| as Byte);
    end := PutEntries(out, end, MotionEncode, s.motions);
    length := PutEntries(out, end, SensorEncode, s.sensors);
  }

  method PutHeld(out: array<Byte>, head: seq<Byte>, held: seq<HeldKey>, motionCount: Byte) returns (end: nat)
    requires |head| + |Entries(HeldEncode, held)| + 1 <= out.Length
    modifies out
    ensures end == |head| + |Entries(HeldEncode, held)| + 1
    ensures out[..end] == head + Entries(HeldEncode, held) + [motionCount]
    ensures forall j :: end <= j < out.Length ==> out[j] == old(out[j])
  {
    PutBytes(out, 0, head);
    end := PutEntries(out, |head|, HeldEncode, held);
    PutBytes(out, end, [motionCount]);
    end := end + 1;
  }

  // ---- the layout, byte by byte ----

  /** Tag, state, eight bytes of positions, battery, link cost, and the held count. */
  lemma {:induction false} HeadLayout(s: Snapshot)
    requires s.Valid()
    ensures var b := Encode(s);
      && |b| == 14 + 3 * |s.held| + 4 * |s.motions| + 8 * |s.sensors|
      && b[0] == 0xFF && b[1] == s.state && b[2..10] == s.bitmap
      && b[10] == s.battery && b[11] == s.linkCost && b[12] as nat == |s.held|
      && b[13 + 3 * |s.held|] as nat == |s.motions|
  {
    EncodeOffsets(s);
    HeadFields(s, Encode(s));
  }

  /** Entry `i` of one list, `size` bytes each, behind `before`. */
  lemma {:induction false} EntryBytes<T(!new)>(e: Entry<T>, xs: seq<T>, before: seq<Byte>, after: seq<Byte>, i: nat,
                                               at: nat)
    requires Exact(e) && i < |xs| && at == |before| + e.size * i
    ensures var b := before + Entries(e.encode, xs) + after;
      |before| <= at && at + e.size <= |b| && b[at..at + e.size] == e.encode(xs[i])
  {
    EntryAt(e, xs, i);
    var b, from := before + Entries(e.encode, xs) + after, e.size * i;
    assert b[at..at + e.size] == Entries(e.encode, xs)[from..from + e.size];
  }

  /** A held key: its region, then its code, low byte first. */
  lemma {:induction false} HeldLayout(s: Snapshot, i: nat)
    requires s.Valid() && i < |s.held|
    ensures var b, at := Encode(s), 13 + 3 * i;
      at + 3 <= |b| && b[at..at + 3] == [s.held[i].reg] + LeBytes(s.held[i].code as int, 2)
  {
    var held, motions, sensors := Entries(HeldEncode, s.held), Entries(MotionEncode, s.motions),
                                  Entries(SensorEncode, s.sensors);
    Assemble(Head(s), held, |s.motions| as Byte, motions, sensors);
    HeldExact();
    EntryBytes(HELD, s.held, Head(s), [|s.motions| as Byte] + motions + sensors, i, 13 + 3 * i);
  }

  /** A motion total: region, code, and the low half of the total, low byte first. */
  lemma {:induction false} MotionLayout(s: Snapshot, i: nat)
    requires s.Valid() && i < |s.motions|
    ensures var b, at, m := Encode(s), 14 + 3 * |s.held| + 4 * i, s.motions[i];
      && at + 4 <= |b| && b[at] == m.reg && b[at + 1] == m.code
      && b[at + 2..at + 4]
         == LeBytes(if m.shortTotal < 0 then m.shortTotal as int + 0x1_0000 else m.shortTotal as int, 2)
  {
    var held, motions, sensors := Entries(HeldEncode, s.held), Entries(MotionEncode, s.motions),
                                  Entries(SensorEncode, s.sensors);
    Assemble(Head(s), held, |s.motions| as Byte, motions, sensors);
    PartLengths(s);
    MotionExact();
    var at := 14 + 3 * |s.held| + 4 * i;
    EntryBytes(MOTION, s.motions, Head(s) + held + [|s.motions| as Byte], sensors, i, at);
    EntrySplit(Encode(s), at, s.motions[i]);
  }

  lemma {:induction false} EntrySplit(b: seq<Byte>, at: nat, m: MotionTotal)
    requires at + 4 <= |b| && b[at..at + 4] == MotionEncode(m)
    ensures b[at] == m.reg && b[at + 1] == m.code && b[at + 2..at + 4] == MotionEncode(m)[2..]
  {
    assert b[at] == b[at..at + 4][0] && b[at + 1] == b[at..at + 4][1];
    assert b[at + 2..at + 4] == b[at..at + 4][2..];
  }

  /** A sensor total: eight bytes, low byte first. */
  lemma {:induction false} SensorLayout(s: Snapshot, i: nat)
    requires s.Valid() && i < |s.sensors|
    ensures var b, at, t := Encode(s), 14 + 3 * |s.held| + 4 * |s.motions| + 8 * i, s.sensors[i];
      && at + 8 <= |b|
      && b[at..at + 8] == LeBytes(if t < 0 then t as int + 0x1_0000_0000_0000_0000 else t as int, 8)
  {
    PartLengths(s);
    SensorExact();
    LastEntry(SENSOR, s.sensors, BeforeSensors(s), i, 14 + 3 * |s.held| + 4 * |s.motions| + 8 * i);
  }

  function BeforeSensors(s: Snapshot): (b: seq<Byte>)
    requires s.Valid()
    ensures Encode(s) == b + Entries(SensorEncode, s.sensors)
  {
    Head(s) + Entries(HeldEncode, s.held) + [|s.motions| as Byte] + Entries(MotionEncode, s.motions)
  }

  lemma {:induction false} LastEntry<T(!new)>(e: Entry<T>, xs: seq<T>, before: seq<Byte>, i: nat, at: nat)
    requires Exact(e) && i < |xs| && at == |before| + e.size * i
    ensures var b := before + Entries(e.encode, xs);
      |before| <= at && at + e.size <= |b| && b[at..at + e.size] == e.encode(xs[i])
  {
    assert before + Entries(e.encode, xs) + [] == before + Entries(e.encode, xs);
    EntryBytes(e, xs, before, [], i, at);
  }

  /** Little-endian: byte `k` has the weight 256^k. */
  lemma {:induction false} LeBytesAt(x: nat, n: nat, k: nat)
    requires k < n
    ensures LeBytes(x, n)[k] as nat == x / Pow256(k) % 256
  {
    if k > 0 {
      LeBytesAt(x / 256, n - 1, k - 1);
      DivBytes(x, Pow256(k - 1), Pow256(k));
    }
  }

  lemma {:induction false} DivBytes(x: nat, b: nat, p: nat)
    requires b > 0 && p == 256 * b
    ensures x / 256 / b == x / p
  {
    var q, r := x / 256, x % 256;
    DivMod(q, b);
    var s, t := q / b, q % b;
    Times256(s, b);
    assert x == s * p + (256 * t + r);
    DivMod(x, p);
    QuotientUnique(x / p, s, x % p, 256 * t + r, p);
  }

  lemma {:induction false} Times256(s: nat, b: nat)
    ensures s * (256 * b) == 256 * (s * b)
  {
  }
}
