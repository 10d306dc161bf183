/** COBS byte stuffing (src/cobs.c).  `EncodeBody` and `DecodeBody` are block-wise reference
    definitions; the two methods are the index-driven loops of the source, proved against them. */
module Cobs {
  import opened Common

  const FULL_BLOCK := 254

  function MaxEncoded(n: nat): nat { n + n / FULL_BLOCK + 2 }

  predicate NonZero(s: seq<Byte>) { forall i :: 0 <= i < |s| ==> s[i] != 0 }

  /** Length of the leading run of non-zero bytes, cut at one full block. */
  function Run(s: seq<Byte>): (n: nat)
    ensures n <= |s| && n <= FULL_BLOCK && NonZero(s[..n])
    ensures n == |s| || n == FULL_BLOCK || s[n] == 0
  {
    RunFrom(s, 0)
  }

  function RunFrom(s: seq<Byte>, k: nat): (n: nat)
    requires k <= |s| && k <= FULL_BLOCK && NonZero(s[..k])
    ensures k <= n <= |s| && n <= FULL_BLOCK && NonZero(s[..n])
    ensures n == |s| || n == FULL_BLOCK || s[n] == 0
    decreases |s| - k
  {
    if k == |s| || k == FULL_BLOCK || s[k] == 0 then k else RunFrom(s, k + 1)
  }

  /** Blocks of the encoding, without the closing delimiter. */
  function EncodeBody(s: seq<Byte>): (r: seq<Byte>)
    decreases |s|
  {
    var n := Run(s);
    if n == FULL_BLOCK then [255] + s[..n] + EncodeBody(s[n..])
    else if n == |s| then [(n + 1) as Byte] + s
    else [(n + 1) as Byte] + s[..n] + EncodeBody(s[n + 1..])
  }

  function Encode(s: seq<Byte>): seq<Byte> { EncodeBody(s) + [0] }

  function DecodeBody(s: seq<Byte>): (r: Option<seq<Byte>>)
    ensures r.Some? ==> |r.value| <= |s|
    decreases |s|
  {
    if s == [] then Some([])
    else if s[0] == 0 || s[0] as int > |s| then None
    else
      var rest := DecodeBody(s[s[0] as int..]);
      if rest.None? then None else Some(s[1..s[0] as int] + Gap(s) + rest.value)
  }

  /** The zero a block stands for: every block but a full one and the last one ends in a zero. */
  function Gap(s: seq<Byte>): (r: seq<Byte>)
    requires s != [] && 0 < s[0] as int <= |s|
  {
    if s[0] < 255 && s[0] as int < |s| then [0] else []
  }

  function Decode(s: seq<Byte>): (r: Option<seq<Byte>>) {
    if s == [] then None else DecodeBody(s)
  }

  // ---- properties of the code ----

  lemma {:induction false} RunIs(s: seq<Byte>, n: nat)
    requires n <= |s| && n <= FULL_BLOCK && NonZero(s[..n])
    requires n == |s| || n == FULL_BLOCK || s[n] == 0
    ensures Run(s) == n
  {
    var m := Run(s);
    assert forall i :: 0 <= i < n ==> s[i] == s[..n][i];
    assert forall i :: 0 <= i < m ==> s[i] == s[..m][i];
  }

  lemma {:induction false} BlockNonZero(code: Byte, data: seq<Byte>, rest: seq<Byte>)
    requires code != 0 && NonZero(data) && NonZero(rest)
    ensures NonZero([code] + data + rest)
  {
  }

  lemma {:induction false} EncodedNonZero(s: seq<Byte>)
    ensures NonZero(EncodeBody(s)) && EncodeBody(s) != []
    decreases |s|
  {
    var n := Run(s);
    if n == FULL_BLOCK {
      EncodedNonZero(s[n..]);
      BlockNonZero(255, s[..n], EncodeBody(s[n..]));
    } else if n < |s| {
      EncodedNonZero(s[n + 1..]);
      BlockNonZero((n + 1) as Byte, s[..n], EncodeBody(s[n + 1..]));
    } else {
      assert s == s[..n];
    }
  }

  lemma {:induction false} EncodedFits(s: seq<Byte>)
    ensures |Encode(s)| <= MaxEncoded(|s|)
    ensures |Encode(s)| >= |s| + 2
    decreases |s|
  {
    var n := Run(s);
    if n == FULL_BLOCK {
      EncodedFits(s[n..]);
    } else if n < |s| {
      EncodedFits(s[n + 1..]);
    }
  }

  lemma {:induction false} CloseAtZero(run: seq<Byte>, rest: seq<Byte>)
    requires NonZero(run) && |run| < FULL_BLOCK
    ensures EncodeBody(run + [0] + rest) == [(|run| + 1) as Byte] + run + EncodeBody(rest)
  {
    var s := run + [0] + rest;
    assert s[..|run|] == run && s[|run| + 1..] == rest;
    RunIs(s, |run|);
  }

  lemma {:induction false} CloseFull(run: seq<Byte>, rest: seq<Byte>)
    requires NonZero(run) && |run| == FULL_BLOCK
    ensures EncodeBody(run + rest) == [255] + run + EncodeBody(rest)
  {
    var s := run + rest;
    assert s[..|run|] == run && s[|run|..] == rest;
    RunIs(s, |run|);
  }

  lemma {:induction false} CloseLast(run: seq<Byte>)
    requires NonZero(run) && |run| < FULL_BLOCK
    ensures EncodeBody(run) == [(|run| + 1) as Byte] + run
  {
    assert run[..|run|] == run;
    RunIs(run, |run|);
  }

  lemma {:induction false} DecodeFirst(code: Byte, data: seq<Byte>, rest: seq<Byte>)
    requires |data| + 1 == code as int
    ensures DecodeBody([code] + data + rest)
         == Prepend(data + if code < 255 && rest != [] then [0] else [], DecodeBody(rest))
  {
    var e := [code] + data + rest;
    assert e[1..code as int] == data && e[code as int..] == rest;
  }

  /** The decoder undoes the encoder on every input, full 254-byte runs included. */
  lemma {:induction false} RoundTrip(s: seq<Byte>)
    ensures Decode(EncodeBody(s)) == Some(s)
    decreases |s|
  {
    EncodedNonZero(s);
    DecodeEncoded(s);
  }

  lemma {:induction false} DecodeEncoded(s: seq<Byte>)
    ensures DecodeBody(EncodeBody(s)) == Some(s)
    decreases |s|
  {
    var n := Run(s);
    var run := s[..n];
    if n == FULL_BLOCK {
      var rest := s[n..];
      assert s == run + rest && run + [] + rest == s;
      CloseFull(run, rest);
      DecodeFirst(255, run, EncodeBody(rest));
      DecodeEncoded(rest);
    } else if n < |s| {
      var rest := s[n + 1..];
      assert s == run + [0] + rest;
      CloseAtZero(run, rest);
      EncodedNonZero(rest);
      DecodeFirst((n + 1) as Byte, run, EncodeBody(rest));
      DecodeEncoded(rest);
    } else {
      assert s == run && run + [] + [] == s;
      CloseLast(run);
      DecodeFirst((n + 1) as Byte, run, []);
      assert [(n + 1) as Byte] + run + [] == EncodeBody(s);
    }
  }

  // ---- the loops ----

  datatype EncodeResult = Encoded(length: nat) | NoMemory

  /** Finished blocks, one code byte still to fill in, then the open run. */
  ghost predicate Layout(w: seq<Byte>, done: seq<Byte>, run: seq<Byte>) {
    && |w| == |done| + 1 + |run|
    && w[..|done|] == done
    && w[|done| + 1..] == run
  }

  lemma {:induction false} FillCode(w: seq<Byte>, done: seq<Byte>, run: seq<Byte>, code: Byte)
    requires Layout(w, done, run)
    ensures w[|done| := code] == done + [code] + run
  {
  }

  lemma {:induction false} NewBlock(w: seq<Byte>, done: seq<Byte>)
    requires |w| == |done| + 1 && w[..|done|] == done
    ensures Layout(w, done, [])
  {
  }

  lemma {:induction false} RegroupBlock(done: seq<Byte>, code: Byte, run: seq<Byte>, rest: seq<Byte>)
    ensures done + ([code] + run + rest) == done + [code] + run + rest
  {
  }

  /** What is left to encode continues the open run. */
  ghost predicate Remaining(input: seq<Byte>, i: nat, done: seq<Byte>, run: seq<Byte>) {
    && i <= |input|
    && |run| < FULL_BLOCK
    && NonZero(run)
    && EncodeBody(input) == done + EncodeBody(run + input[i..])
  }

  /** There is always room for the open run, its code byte and the closing delimiter. */
  lemma {:induction false} EncodingFits(input: seq<Byte>, i: nat, done: seq<Byte>, run: seq<Byte>)
    requires Remaining(input, i, done, run)
    ensures |done| + 1 + |run| < |Encode(input)| <= MaxEncoded(|input|)
    ensures i < |input| && input[i] != 0 ==> |done| + |run| + 2 < |Encode(input)|
  {
    EncodedFits(input);
    EncodedFits(run + input[i..]);
  }

  lemma {:induction false} EncodeZero(input: seq<Byte>, i: nat, done: seq<Byte>, run: seq<Byte>)
    requires Remaining(input, i, done, run) && i < |input| && input[i] == 0
    ensures Remaining(input, i + 1, done + [(|run| + 1) as Byte] + run, [])
  {
    var rest := input[i + 1..];
    assert run + input[i..] == run + [0] + rest;
    CloseAtZero(run, rest);
    RegroupBlock(done, (|run| + 1) as Byte, run, EncodeBody(rest));
    assert [] + rest == rest;
  }

  lemma {:induction false} EncodePush(input: seq<Byte>, i: nat, done: seq<Byte>, run: seq<Byte>)
    requires Remaining(input, i, done, run) && i < |input| && input[i] != 0
    ensures |run| + 1 < FULL_BLOCK ==> Remaining(input, i + 1, done, run + [input[i]])
    ensures |run| + 1 == FULL_BLOCK ==> Remaining(input, i + 1, done + [255] + (run + [input[i]]), [])
  {
    var run', rest := run + [input[i]], input[i + 1..];
    assert run + input[i..] == run' + rest;
    if |run'| == FULL_BLOCK {
      CloseFull(run', rest);
      RegroupBlock(done, 255, run', EncodeBody(rest));
      assert [] + rest == rest;
    }
  }

  lemma {:induction false} EncodeEnd(input: seq<Byte>, done: seq<Byte>, run: seq<Byte>)
    requires Remaining(input, |input|, done, run)
    ensures done + [(|run| + 1) as Byte] + run + [0] == Encode(input)
  {
    assert run + input[|input|..] == run;
    CloseLast(run);
    assert done + ([(|run| + 1) as Byte] + run) == done + [(|run| + 1) as Byte] + run;
  }

  /** Writes one byte at the end of the written prefix. */
  method Put(output: array<Byte>, index: nat, b: Byte)
    requires index < output.Length
    modifies output
    ensures output[..index + 1] == old(output[..index]) + [b]
    ensures forall j :: index < j < output.Length ==> output[j] == old(output[j])
  {
    output[index] := b;
  }

  /** Fills in the open block's code byte; what follows starts the next block. */
  method FinishBlock(output: array<Byte>, index: nat, position: nat, code: Byte,
                     ghost done: seq<Byte>, ghost run: seq<Byte>)
    requires position < index <= output.Length && |done| == position
    requires Layout(output[..index], done, run)
    modifies output
    ensures output[..index] == done + [code] + run
    ensures index < output.Length ==> Layout(output[..index + 1], done + [code] + run, [])
    ensures forall j :: index <= j < output.Length ==> output[j] == old(output[j])
  {
    FillCode(output[..index], done, run, code);
    output[position] := code;
    assert output[..index] == old(output[..index])[position := code];
    if index < output.Length {
      NewBlock(output[..index + 1], done + [code] + run);
    }
  }

  method PushByte(output: array<Byte>, index: nat, b: Byte, ghost done: seq<Byte>, ghost run: seq<Byte>)
    requires index < output.Length && Layout(output[..index], done, run)
    modifies output
    ensures Layout(output[..index + 1], done, run + [b])
    ensures forall j :: index < j < output.Length ==> output[j] == old(output[j])
  {
    Put(output, index, b);
  }

  /** One iteration of the encoder loop. */
  method EncodeByte(input: seq<Byte>, inputIndex: nat, output: array<Byte>, outputIndex: nat, codePosition: nat,
                    code: Byte, ghost done: seq<Byte>, ghost run: seq<Byte>)
    returns (nextIndex: nat, nextPosition: nat, nextCode: Byte, ghost done': seq<Byte>, ghost run': seq<Byte>)
    requires inputIndex < |input| && |Encode(input)| <= output.Length
    requires codePosition + code as int == outputIndex <= output.Length && |done| == codePosition && code > 0
    requires Layout(output[..outputIndex], done, run) && Remaining(input, inputIndex, done, run)
    modifies output
    ensures nextPosition + nextCode as int == nextIndex <= output.Length && |done'| == nextPosition && nextCode > 0
    ensures Layout(output[..nextIndex], done', run') && Remaining(input, inputIndex + 1, done', run')
    ensures forall j :: |Encode(input)| <= j < output.Length ==> output[j] == old(output[j])
  {
    EncodingFits(input, inputIndex, done, run);
    if input[inputIndex] == 0 {
      EncodeZero(input, inputIndex, done, run);
      FinishBlock(output, outputIndex, codePosition, code, done, run);
      return outputIndex + 1, outputIndex, 1, done + [code] + run, [];
    }
    EncodePush(input, inputIndex, done, run);
    PushByte(output, outputIndex, input[inputIndex], done, run);
    nextIndex, nextPosition, nextCode := outputIndex + 1, codePosition, code + 1;
    done', run' := done, run + [input[inputIndex]];
    if nextCode == 255 {
      FinishBlock(output, nextIndex, codePosition, nextCode, done', run');
      done', run' := done' + [nextCode] + run', [];
      nextIndex, nextPosition, nextCode := nextIndex + 1, nextIndex, 1;
    }
  }

  method EncodeInto(input: seq<Byte>, output: array<Byte>) returns (r: EncodeResult)
    modifies output
    ensures r.NoMemory? <==> output.Length < MaxEncoded(|input|)
    ensures r.NoMemory? ==> output[..] == old(output[..])
    ensures r.Encoded? ==> r.length == |Encode(input)| <= output.Length && output[..r.length] == Encode(input)
    ensures r.Encoded? ==> forall j :: r.length <= j < output.Length ==> output[j] == old(output[j])
  {
    if output.Length < MaxEncoded(|input|) {
      return NoMemory;
    }
    EncodedFits(input);
    var outputIndex, codePosition, code: Byte := 1, 0, 1;
    ghost var done: seq<Byte>, run: seq<Byte> := [], [];
    assert run + input[0..] == input;
    for inputIndex := 0 to |input|
      invariant codePosition + code as int == outputIndex <= output.Length && |done| == codePosition && code > 0
      invariant Layout(output[..outputIndex], done, run)
      invariant Remaining(input, inputIndex, done, run)
      invariant forall j :: |Encode(input)| <= j < output.Length ==> output[j] == old(output[j])
    {
      outputIndex, codePosition, code, done, run :=
        EncodeByte(input, inputIndex, output, outputIndex, codePosition, code, done, run);
    }
    r := CloseEncoding(input, output, outputIndex, codePosition, code, done, run);
  }

  /** Fills in the last code byte and appends the delimiter. */
  method CloseEncoding(input: seq<Byte>, output: array<Byte>, outputIndex: nat, codePosition: nat, code: Byte,
                       ghost done: seq<Byte>, ghost run: seq<Byte>)
    returns (r: EncodeResult)
    requires |Encode(input)| <= output.Length
    requires codePosition + code as int == outputIndex <= output.Length && |done| == codePosition && code > 0
    requires Layout(output[..outputIndex], done, run) && Remaining(input, |input|, done, run)
    modifies output
    ensures r.Encoded? && r.length == |Encode(input)| && output[..r.length] == Encode(input)
    ensures forall j :: r.length <= j < output.Length ==> output[j] == old(output[j])
  {
    EncodingFits(input, |input|, done, run);
    EncodeEnd(input, done, run);
    FinishBlock(output, outputIndex, codePosition, code, done, run);
    Put(output, outputIndex, 0);
    r := Encoded(outputIndex + 1);
  }

  /** Moves one block's data down over bytes that were already read. */
  method MoveDown(buffer: array<Byte>, inputIndex: nat, outputIndex: nat, count: nat)
    requires outputIndex < inputIndex && inputIndex + count <= buffer.Length
    modifies buffer
    ensures buffer[..outputIndex + count] == old(buffer[..outputIndex]) + old(buffer[inputIndex..inputIndex + count])
    ensures forall j :: inputIndex + count <= j < buffer.Length ==> buffer[j] == old(buffer[j])
  {
    for k := 0 to count
      invariant buffer[..outputIndex + k] == old(buffer[..outputIndex]) + old(buffer[inputIndex..inputIndex + k])
      invariant forall j :: inputIndex + k <= j < buffer.Length ==> buffer[j] == old(buffer[j])
    {
      Put(buffer, outputIndex + k, buffer[inputIndex + k]);
    }
  }

  /** Decodes the block at `inputIndex` onto the end of the output. */
  method DecodeOne(buffer: array<Byte>, length: nat, inputIndex: nat, outputIndex: nat)
    returns (ok: bool, nextInput: nat, nextOutput: nat)
    requires outputIndex <= inputIndex < length <= buffer.Length
    modifies buffer
    ensures ok <==> 0 < old(buffer[inputIndex]) as int <= length - inputIndex
    ensures ok ==> var block := old(buffer[inputIndex..length]);
      && nextOutput <= nextInput == inputIndex + block[0] as int
      && buffer[..nextOutput] == old(buffer[..outputIndex]) + block[1..block[0] as int] + Gap(block)
      && buffer[nextInput..length] == block[block[0] as int..]
    ensures ok ==> forall j :: nextInput <= j < buffer.Length ==> buffer[j] == old(buffer[j])
    ensures !ok ==> buffer[..] == old(buffer[..])
  {
    var code := buffer[inputIndex];
    nextInput, nextOutput := inputIndex + 1, outputIndex;
    if code == 0 || code as int - 1 > length - nextInput {
      return false, nextInput, nextOutput;
    }
    BlockData(buffer[..], inputIndex, length, code as int);
    MoveDown(buffer, nextInput, outputIndex, code as int - 1);
    nextInput, nextOutput := inputIndex + code as int, outputIndex + code as int - 1;
    if code < 255 && nextInput < length {
      Put(buffer, nextOutput, 0);
      nextOutput := nextOutput + 1;
    }
    ok := true;
  }

  /** Decodes `buffer[..length]` over itself.  `None` is the source's -EINVAL.  No write ever
      reaches an unread byte: everything at or after `inputIndex` keeps its old value. */
  method DecodeInPlace(buffer: array<Byte>, length: nat) returns (r: Option<nat>)
    requires length <= buffer.Length
    modifies buffer
    ensures r.Some? <==> Decode(old(buffer[..length])).Some?
    ensures r.Some? ==> r.value <= length && Some(buffer[..r.value]) == Decode(old(buffer[..length]))
    ensures forall j :: length <= j < buffer.Length ==> buffer[j] == old(buffer[j])
  {
    if length < 1 {
      return None;
    }
    ghost var whole := DecodeBody(buffer[..length]);
    var inputIndex, outputIndex, ok := 0, 0, true;
    assert buffer[0..length] == buffer[..length];
    PrependNothing(whole);
    while inputIndex < length
      invariant 0 <= outputIndex <= inputIndex <= length
      invariant forall j :: inputIndex <= j < buffer.Length ==> buffer[j] == old(buffer[j])
      invariant whole == Prepend(buffer[..outputIndex], DecodeBody(buffer[inputIndex..length]))
    {
      ghost var block, before := buffer[inputIndex..length], buffer[..outputIndex];
      ok, inputIndex, outputIndex := DecodeOne(buffer, length, inputIndex, outputIndex);
      if !ok {
        return None;
      }
      DecodeBlock(block, before, buffer[..outputIndex]);
    }
    assert buffer[inputIndex..length] == [];
    assert buffer[..outputIndex] + [] == buffer[..outputIndex];
    r := Some(outputIndex);
  }

  lemma {:induction false} BlockData(s: seq<Byte>, start: nat, length: nat, code: nat)
    requires start < length <= |s| && 0 < code <= length - start
    ensures s[start + 1..start + code] == s[start..length][1..code]
    ensures s[start + code..length] == s[start..length][code..]
  {
    var block := s[start..length];
    assert forall i :: 1 <= i < code ==> block[i] == s[start + i];
    assert forall i :: 0 <= i < code - 1 ==> block[1..code][i] == block[i + 1];
    assert forall i :: 0 <= i < code - 1 ==> s[start + 1..start + code][i] == block[1..code][i];
    assert forall i :: code <= i < |block| ==> block[i] == s[start + i];
    assert forall i :: 0 <= i < |block| - code ==> s[start + code..length][i] == block[code..][i];
  }

  lemma {:induction false} PrependNothing(r: Option<seq<Byte>>)
    ensures Prepend([], r) == r
  {
    if r.Some? {
      assert [] + r.value == r.value;
    }
  }

  function Prepend(a: seq<Byte>, r: Option<seq<Byte>>): Option<seq<Byte>> {
    if r.None? then None else Some(a + r.value)
  }

  lemma {:induction false} DecodeBlock(block: seq<Byte>, before: seq<Byte>, after: seq<Byte>)
    requires block != [] && 0 < block[0] as int <= |block|
    requires after == before + block[1..block[0] as int] + Gap(block)
    ensures Prepend(before, DecodeBody(block)) == Prepend(after, DecodeBody(block[block[0] as int..]))
  {
    var rest := DecodeBody(block[block[0] as int..]);
    if rest.Some? {
      assert before + (block[1..block[0] as int] + Gap(block) + rest.value) == after + rest.value;
    }
  }
}
