/** HID reports as the relay carries them (src/esb_hid_relay_pointer.h:16-19,
    src/esb_hid_relay_pointer.c:26-41). */
module RelayReports {
  import opened Common
  import opened Layout
  import opened MotionTotal

  const MAX_PAYLOAD := 48
  const POINTER_LENGTH := 10
  const AXES := 4

  /** ZMK's report ids and sizes: build assertions keep the three reports in one payload. */
  datatype Sizes = Sizes(keyboardId: Byte, consumerId: Byte, mouseId: Byte, keyboardLength: nat, consumerLength: nat) {
    predicate Valid() {
      && keyboardId != consumerId && keyboardId != mouseId && consumerId != mouseId
      && keyboardLength >= 1 && consumerLength >= 1
      && keyboardLength + consumerLength + POINTER_LENGTH <= MAX_PAYLOAD
    }
  }

  /** A mouse report's body: buttons and the low halves of four running totals. */
  datatype Body = Body(buttons: Byte, totals: seq<I16>)

  /** `Command` is any packet for a pipe that is not a relay. */
  datatype Report =
    | Mouse(body: Body)
    | Keyboard(rest: seq<Byte>)
    | Consumer(rest: seq<Byte>)
    | Command(bytes: seq<Byte>)

  function Length(r: Report): nat {
    match r
    case Mouse(_) => POINTER_LENGTH
    case Keyboard(rest) => 1 + |rest|
    case Consumer(rest) => 1 + |rest|
    case Command(bytes) => |bytes|
  }

  function TotalLength(rs: seq<Report>): nat {
    if rs == [] then 0 else TotalLength(rs[..|rs| - 1]) + Length(rs[|rs| - 1])
  }

  /** A whole HID report, of the size the dongle splits by. */
  predicate IsHid(sizes: Sizes, r: Report) {
    match r
    case Mouse(body) => |body.totals| == AXES
    case Keyboard(rest) => 1 + |rest| == sizes.keyboardLength
    case Consumer(rest) => 1 + |rest| == sizes.consumerLength
    case Command(_) => false
  }

  predicate AllHid(sizes: Sizes, rs: seq<Report>) {
    forall i :: 0 <= i < |rs| ==> IsHid(sizes, rs[i])
  }

  lemma {:induction false} LengthAppend(a: seq<Report>, b: seq<Report>)
    ensures TotalLength(a + b) == TotalLength(a) + TotalLength(b)
  {
    if b == [] {
      assert a + b == a;
    } else {
      assert (a + b)[..|a + b| - 1] == a + b[..|b| - 1];
      LengthAppend(a, b[..|b| - 1]);
    }
  }

  /** The body of the last mouse report, the one a write commits. */
  function LastMouse(rs: seq<Report>): (b: Option<Body>)
    ensures b.Some? ==> exists i :: 0 <= i < |rs| && rs[i] == Mouse(b.value)
    ensures b.None? ==> forall i :: 0 <= i < |rs| ==> !rs[i].Mouse?
  {
    if rs == [] then None
    else if rs[|rs| - 1].Mouse? then Some(rs[|rs| - 1].body)
    else LastMouse(rs[..|rs| - 1])
  }

  function Low16(x: int): I16 { Wrap16(x) as I16 }
}
