/** Bitmaps as the firmware keeps them: eight positions to a byte
    (src/esb_keepalive.c:177-197, src/hop_policy.c:147-160). */
module Bitmap {
  /** 1 << k */
  function Bit(k: nat): bv8
    requires k < 8
  {
    if k == 0 then 1 else if k == 1 then 2 else if k == 2 then 4 else if k == 3 then 8
    else if k == 4 then 16 else if k == 5 then 32 else if k == 6 then 64 else 128
  }

  function Get(bitmap: seq<bv8>, position: nat): bool
    requires position < 8 * |bitmap|
  {
    bitmap[position / 8] & Bit(position % 8) != 0
  }

  function Set(bitmap: seq<bv8>, position: nat, on: bool): (r: seq<bv8>)
    requires position < 8 * |bitmap|
    ensures |r| == |bitmap|
    ensures forall q: nat :: q < 8 * |bitmap| ==> Get(r, q) == if q == position then on else Get(bitmap, q)
  {
    var byte := bitmap[position / 8];
    BitLaws(byte, position % 8);
    bitmap[position / 8 := Written(byte, position % 8, on)]
  }

  function Written(byte: bv8, k: nat, on: bool): bv8
    requires k < 8
  {
    if on then byte | Bit(k) else byte & !Bit(k)
  }

  lemma {:induction false} BitLaws(byte: bv8, k: nat)
    requires k < 8
    ensures forall j :: 0 <= j < 8 ==> (Written(byte, k, true) & Bit(j) != 0) == (j == k || byte & Bit(j) != 0)
    ensures forall j :: 0 <= j < 8 ==> (Written(byte, k, false) & Bit(j) != 0) == (j != k && byte & Bit(j) != 0)
  {
    forall j | 0 <= j < 8
      ensures (Written(byte, k, true) & Bit(j) != 0) == (j == k || byte & Bit(j) != 0)
      ensures (Written(byte, k, false) & Bit(j) != 0) == (j != k && byte & Bit(j) != 0)
    {
      BitLaw(byte, Bit(k), Bit(j));
      assert Bit(k) & Bit(j) == if j == k then Bit(j) else 0;
    }
  }

  lemma {:induction false} BitLaw(b: bv8, x: bv8, y: bv8)
    ensures (b | x) & y == (b & y) | (x & y)
    ensures x & y == 0 ==> (b & !x) & y == b & y
    ensures x == y ==> (b & !x) & y == 0
    ensures (b | x) & x == x
    ensures b | 0 == b
  {
  }

  /** The positions below `n` that are set. */
  function Members(bitmap: seq<bv8>, n: nat): (r: set<nat>)
    requires n <= 8 * |bitmap|
    ensures forall p: nat :: p in r <==> p < n && Get(bitmap, p)
  {
    set p: nat | p < n && Get(bitmap, p)
  }

  /** Position `p` is bit `p % 8`, the lowest first, of byte `p / 8`. */
  lemma {:induction false} GetIsShift(bitmap: seq<bv8>, position: nat)
    requires position < 8 * |bitmap|
    ensures Get(bitmap, position) <==> (bitmap[position / 8] >> (position % 8) as bv4) & 1 == 1
  {
    ShiftIs(bitmap[position / 8], position % 8);
  }

  lemma {:induction false} ShiftIs(b: bv8, k: nat)
    requires k < 8
    ensures b & Bit(k) != 0 <==> (b >> k as bv4) & 1 == 1
  {
  }
}
