/** A byte stream cut at zero bytes, each closed segment handed to `accept`. */
module Segments {
  import opened Common
  import opened Cobs

  /** The bytes since the last zero. */
  function Tail(stream: seq<Byte>): (t: seq<Byte>)
    ensures NonZero(t)
  {
    if stream == [] || stream[|stream| - 1] == 0 then []
    else Tail(stream[..|stream| - 1]) + [stream[|stream| - 1]]
  }

  /** What the zeros seen so far have closed and delivered. */
  function Deliver<T>(accept: seq<Byte> -> seq<T>, stream: seq<Byte>): seq<T> {
    if stream == [] then []
    else
      var init := stream[..|stream| - 1];
      if stream[|stream| - 1] == 0 then Deliver(accept, init) + accept(Tail(init)) else Deliver(accept, init)
  }

  lemma {:induction false} DeliverByte<T>(accept: seq<Byte> -> seq<T>, stream: seq<Byte>, byte: Byte)
    ensures Deliver(accept, stream + [byte])
         == Deliver(accept, stream) + if byte == 0 then accept(Tail(stream)) else []
    ensures Tail(stream + [byte]) == if byte == 0 then [] else Tail(stream) + [byte]
  {
    assert (stream + [byte])[..|stream|] == stream;
  }

  lemma {:induction false} DeliverOpen<T>(accept: seq<Byte> -> seq<T>, open: seq<Byte>)
    requires NonZero(open)
    ensures Deliver(accept, open) == [] && Tail(open) == open
  {
    if open != [] {
      var init := open[..|open| - 1];
      DeliverOpen(accept, init);
      assert open == init + [open[|open| - 1]];
    }
  }

  /** Splitting a stream into chunks changes nothing: the second chunk continues the tail. */
  lemma {:induction false} DeliverAppend<T>(accept: seq<Byte> -> seq<T>, a: seq<Byte>, b: seq<Byte>)
    ensures Deliver(accept, a + b) == Deliver(accept, a) + Deliver(accept, Tail(a) + b)
    ensures Tail(a + b) == Tail(Tail(a) + b)
    decreases |b|
  {
    DeliverOpen(accept, Tail(a));
    if b == [] {
      assert a + b == a && Tail(a) + b == Tail(a);
    } else {
      var init, last := b[..|b| - 1], b[|b| - 1];
      DeliverAppend(accept, a, init);
      assert a + b == a + init + [last] && Tail(a) + b == Tail(a) + init + [last];
      DeliverByte(accept, a + init, last);
      DeliverByte(accept, Tail(a) + init, last);
      Regroup(Deliver(accept, a), Deliver(accept, Tail(a) + init),
              if last == 0 then accept(Tail(a + init)) else []);
    }
  }

  /** One closed segment at a time: with `DeliverOpen`, the whole of cutting at zeros. */
  lemma {:induction false} DeliverSegment<T>(accept: seq<Byte> -> seq<T>, segment: seq<Byte>, rest: seq<Byte>)
    requires NonZero(segment)
    ensures Deliver(accept, segment + [0] + rest) == accept(segment) + Deliver(accept, rest)
    ensures Tail(segment + [0] + rest) == Tail(rest)
  {
    DeliverOpen(accept, segment);
    DeliverByte(accept, segment, 0);
    DeliverAppend(accept, segment + [0], rest);
    assert [] + rest == rest;
    assert [] + accept(segment) == accept(segment);
  }
}
