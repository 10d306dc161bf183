/** Little-endian integers and runs of fixed-size entries. */
module Layout {
  import opened Common

  newtype U16 = x: int | 0 <= x < 0x1_0000
  newtype I16 = x: int | -0x8000 <= x < 0x8000
  newtype I64 = x: int | -0x8000_0000_0000_0000 <= x < 0x8000_0000_0000_0000

  function Pow256(n: nat): (p: nat)
    ensures p > 0
  {
    if n == 0 then 1 else 256 * Pow256(n - 1)
  }

  function LeBytes(x: nat, n: nat): (b: seq<Byte>)
    ensures |b| == n
  {
    if n == 0 then [] else [(x % 256) as Byte] + LeBytes(x / 256, n - 1)
  }

  function LeValue(b: seq<Byte>): (x: nat)
    ensures x < Pow256(|b|)
  {
    if b == [] then 0 else b[0] as int + 256 * LeValue(b[1..])
  }

  lemma {:induction false} LeValueOfBytes(x: nat, n: nat)
    requires x < Pow256(n)
    ensures LeValue(LeBytes(x, n)) == x
  {
    if n > 0 {
      assert LeBytes(x, n)[1..] == LeBytes(x / 256, n - 1);
      LeValueOfBytes(x / 256, n - 1);
    }
  }

  lemma {:induction false} LeBytesOfValue(b: seq<Byte>)
    ensures LeBytes(LeValue(b), |b|) == b
  {
    if b != [] {
      LeBytesOfValue(b[1..]);
      LowByte(b[0] as nat, LeValue(b[1..]));
      assert b == [b[0]] + b[1..];
    }
  }

  lemma {:induction false} LowByte(low: nat, rest: nat)
    requires low < 256
    ensures (low + 256 * rest) % 256 == low && (low + 256 * rest) / 256 == rest
  {
  }

  /** An entry type with a fixed size, as its encoder and decoder. */
  datatype Entry<!T> = Entry(size: nat, encode: T -> seq<Byte>, decode: seq<Byte> -> T)

  ghost predicate Exact<T(!new)>(e: Entry<T>) {
    && e.size > 0
    && (forall x: T :: |e.encode(x)| == e.size && e.decode(e.encode(x)) == x)
    && (forall b: seq<Byte> :: |b| == e.size ==> e.encode(e.decode(b)) == b)
  }

  function Entries<T>(encode: T -> seq<Byte>, xs: seq<T>): seq<Byte> {
    if xs == [] then [] else Entries(encode, xs[..|xs| - 1]) + encode(xs[|xs| - 1])
  }

  lemma {:induction false} EntriesLength<T(!new)>(e: Entry<T>, xs: seq<T>)
    requires Exact(e)
    ensures |Entries(e.encode, xs)| == e.size * |xs|
  {
    if xs != [] {
      EntriesLength(e, xs[..|xs| - 1]);
      assert e.size * |xs| == e.size * (|xs| - 1) + e.size;
    }
  }

  lemma {:induction false} MulStep(k: nat, i: nat, n: nat)
    requires i < n
    ensures 0 <= k * i && k * i + k <= k * n
  {
    assert k * n == k * i + k * (n - i);
    assert k * (n - i) == k + k * (n - i - 1);
    assert k * (n - i - 1) >= 0;
  }

  lemma {:induction false} MulLast(k: nat, n: nat)
    requires n > 0
    ensures k * (n - 1) + k == k * n
  {
  }

  /** Entry `i` sits at offset `size * i`. */
  lemma {:induction false} EntryAt<T(!new)>(e: Entry<T>, xs: seq<T>, i: nat)
    requires Exact(e) && i < |xs|
    ensures 0 <= e.size * i && e.size * i + e.size <= |Entries(e.encode, xs)|
    ensures Entries(e.encode, xs)[e.size * i..e.size * i + e.size] == e.encode(xs[i])
  {
    var init := xs[..|xs| - 1];
    EntriesLength(e, init);
    EntriesLength(e, xs);
    MulStep(e.size, i, |xs|);
    if i < |init| {
      EntryAt(e, init, i);
      assert Entries(e.encode, xs)[..|Entries(e.encode, init)|] == Entries(e.encode, init);
    }
  }

  /** Entry `i` of a packet, `size * i` bytes past `offset`. */
  function ReadAt<T>(e: Entry<T>, data: seq<Byte>, offset: nat, i: nat): T
    requires 0 <= e.size * i && offset + e.size * i + e.size <= |data|
  {
    e.decode(data[offset + e.size * i..offset + e.size * i + e.size])
  }

  function ReadAll<T>(e: Entry<T>, data: seq<Byte>, offset: nat, n: nat): (xs: seq<T>)
    requires n > 0 ==> 0 <= e.size * n && offset + e.size * n <= |data|
    ensures |xs| == n
  {
    if n == 0 then []
    else
      MulStep(e.size, n - 1, n);
      ReadAll(e, data, offset, n - 1) + [ReadAt(e, data, offset, n - 1)]
  }

  lemma {:induction false} ReadAllAt<T(!new)>(e: Entry<T>, data: seq<Byte>, offset: nat, n: nat, i: nat)
    requires 0 <= e.size * n && offset + e.size * n <= |data| && i < n
    ensures 0 <= e.size * i && offset + e.size * i + e.size <= |data|
    ensures ReadAll(e, data, offset, n)[i] == ReadAt(e, data, offset, i)
  {
    MulStep(e.size, i, n);
    if i < n - 1 {
      MulStep(e.size, n - 1, n);
      ReadAllAt(e, data, offset, n - 1, i);
    }
  }

  /** Reading back what was written. */
  lemma {:induction false} ReadWritten<T(!new)>(e: Entry<T>, xs: seq<T>, before: seq<Byte>, after: seq<Byte>)
    requires Exact(e)
    ensures var data := before + Entries(e.encode, xs) + after;
      && |data| == |before| + e.size * |xs| + |after|
      && ReadAll(e, data, |before|, |xs|) == xs
  {
    EntriesLength(e, xs);
    var data := before + Entries(e.encode, xs) + after;
    forall i | 0 <= i < |xs|
      ensures ReadAll(e, data, |before|, |xs|)[i] == xs[i]
    {
      ReadAllAt(e, data, |before|, |xs|, i);
      EntryAt(e, xs, i);
      assert data[|before| + e.size * i..|before| + e.size * i + e.size]
          == Entries(e.encode, xs)[e.size * i..e.size * i + e.size];
    }
  }

  /** Writing back what was read. */
  lemma {:induction false} WrittenRead<T(!new)>(e: Entry<T>, data: seq<Byte>, offset: nat, n: nat)
    requires Exact(e) && 0 <= e.size * n && offset + e.size * n <= |data|
    ensures Entries(e.encode, ReadAll(e, data, offset, n)) == data[offset..offset + e.size * n]
  {
    WrittenTo(e, data, offset, n, offset + e.size * n);
  }

  lemma {:induction false} WrittenTo<T(!new)>(e: Entry<T>, data: seq<Byte>, offset: nat, n: nat, end: nat)
    requires Exact(e) && 0 <= e.size * n && offset + e.size * n == end <= |data|
    ensures Entries(e.encode, ReadAll(e, data, offset, n)) == data[offset..end]
  {
    if n > 0 {
      var xs, mid := ReadLast(e, data, offset, n);
      WrittenTo(e, data, offset, n - 1, mid);
      WrittenOne(e, xs, e.decode(data[mid..end]), data, offset, mid);
    }
  }

  /** The last of `n` entries read, and where it starts. */
  lemma {:induction false} ReadLast<T(!new)>(e: Entry<T>, data: seq<Byte>, offset: nat, n: nat)
    returns (xs: seq<T>, mid: nat)
    requires n > 0 && 0 <= e.size * n && offset + e.size * n <= |data|
    ensures 0 <= e.size * (n - 1) && mid == offset + e.size * (n - 1) && mid + e.size == offset + e.size * n
    ensures xs == ReadAll(e, data, offset, n - 1)
    ensures ReadAll(e, data, offset, n) == xs + [e.decode(data[mid..mid + e.size])]
  {
    MulStep(e.size, n - 1, n);
    MulLast(e.size, n);
    mid := offset + e.size * (n - 1);
    xs := ReadAll(e, data, offset, n - 1);
  }

  lemma {:induction false} WrittenOne<T(!new)>(e: Entry<T>, xs: seq<T>, x: T, data: seq<Byte>, from: nat, mid: nat)
    requires Exact(e) && from <= mid && mid + e.size <= |data|
    requires Entries(e.encode, xs) == data[from..mid] && x == e.decode(data[mid..mid + e.size])
    ensures Entries(e.encode, xs + [x]) == data[from..mid + e.size]
  {
    assert (xs + [x])[..|xs|] == xs;
    assert data[from..mid] + data[mid..mid + e.size] == data[from..mid + e.size];
  }
}
