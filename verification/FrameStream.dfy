/** Frames and their prefixes: how a byte position in a stream of frames names a frame. */
module FrameStream {
  import opened Common
  import opened Segments
  import opened WireFrame
  import Cobs

  /** Every frame is non-zero bytes closed by one zero. */
  ghost predicate Delimited(frame: Framer) {
    forall p: Payload :: |frame(p)| > 0 && frame(p)[|frame(p)| - 1] == 0
                         && Cobs.NonZero(frame(p)[..|frame(p)| - 1])
  }

  lemma {:induction false} FramerIsDelimited(crc: Crc)
    ensures Delimited(FramerOf(crc))
  {
    forall p: Payload
      ensures var f := FramerOf(crc)(p); |f| > 0 && f[|f| - 1] == 0 && Cobs.NonZero(f[..|f| - 1])
    {
      var body := Cobs.EncodeBody(p + [crc(p)]);
      Cobs.EncodedNonZero(p + [crc(p)]);
      assert FramerOf(crc)(p) == body + [0];
      assert (body + [0])[..|body|] == body;
    }
  }

  lemma {:induction false} FramesAppend(frame: Framer, a: seq<Payload>, b: seq<Payload>)
    ensures Frames(frame, a + b) == Frames(frame, a) + Frames(frame, b)
    decreases |b|
  {
    if b == [] {
      assert a + b == a;
    } else {
      var init, last := b[..|b| - 1], b[|b| - 1];
      assert (a + b)[..|a + b| - 1] == a + init;
      FramesAppend(frame, a, init);
      Regroup(Frames(frame, a), Frames(frame, init), frame(last));
    }
  }

  lemma {:induction false} FramesOne(frame: Framer, p: Payload)
    ensures Frames(frame, [p]) == frame(p)
  {
    assert [p][..0] == [];
    assert Frames(frame, []) == [];
  }

  lemma {:induction false} FramesFirst(frame: Framer, ps: seq<Payload>)
    requires ps != []
    ensures Frames(frame, ps) == frame(ps[0]) + Frames(frame, ps[1..])
  {
    assert ps == [ps[0]] + ps[1..];
    FramesAppend(frame, [ps[0]], ps[1..]);
    FramesOne(frame, ps[0]);
  }

  lemma {:induction false} SplitNext(frame: Framer, ps: seq<Payload>, k: nat, y: seq<Byte>, x: seq<Byte>)
    requires ps != [] && k < |ps| && x == Frames(frame, ps[1..][..k]) + y
    ensures frame(ps[0]) + x == Frames(frame, ps[..k + 1]) + y
    ensures ps[k + 1..] == ps[1..][k..]
  {
    Regroup(frame(ps[0]), Frames(frame, ps[1..][..k]), y);
    FramesFirst(frame, ps[..k + 1]);
    assert ps[..k + 1][1..] == ps[1..][..k];
  }

  lemma {:induction false} InsideFrame(frame: Framer, p: Payload, x: seq<Byte>, z: seq<Byte>, rest: seq<Byte>)
    requires Delimited(frame) && frame(p) + rest == x + z && |x| < |frame(p)|
    ensures Cobs.NonZero(x) && z != []
  {
    var f := frame(p);
    assert x == (x + z)[..|x|];
    assert forall i :: 0 <= i < |x| ==> x[i] == f[i] == f[..|f| - 1][i];
  }

  lemma {:induction false} PastFrame(f: seq<Byte>, rest: seq<Byte>, x: seq<Byte>, z: seq<Byte>)
    requires f + rest == x + z && |x| >= |f|
    ensures x == f + x[|f|..] && rest == x[|f|..] + z
  {
    assert f == (f + rest)[..|f|] && rest == (f + rest)[|f|..];
    assert x == (x + z)[..|x|];
    assert x[..|f|] == (x + z)[..|f|];
    assert x[|f|..] + z == (x + z)[|f|..];
  }

  /** Any prefix of a stream of frames is some whole frames, then part of the next one.  It ends
      between two frames exactly when it is empty or its last byte is zero. */
  lemma {:induction false} SplitPrefix(frame: Framer, ps: seq<Payload>, x: seq<Byte>, z: seq<Byte>)
    returns (k: nat, y: seq<Byte>)
    requires Delimited(frame) && Frames(frame, ps) == x + z
    ensures k <= |ps| && x == Frames(frame, ps[..k]) + y && Frames(frame, ps[k..]) == y + z
    ensures Cobs.NonZero(y)
    ensures y == [] <==> x == [] || x[|x| - 1] == 0
    ensures y != [] ==> z != [] && k < |ps|
    decreases |ps|
  {
    if ps == [] {
      assert x + z == [];
      k, y := 0, [];
    } else {
      var f := frame(ps[0]);
      FramesFirst(frame, ps);
      if |x| < |f| {
        k, y := 0, x;
        InsideFrame(frame, ps[0], x, z, Frames(frame, ps[1..]));
        assert ps[0..] == ps && x == [] + x;
      } else {
        var x' := x[|f|..];
        PastFrame(f, Frames(frame, ps[1..]), x, z);
        k, y := SplitPrefix(frame, ps[1..], x', z);
        SplitNext(frame, ps, k, y, x');
        k := k + 1;
      }
    }
  }
}
