/** RSA decryption of an encrypted header (`CryptoUtil.DecryptRsa`): the
    input is read in chunks of the engine's input block size into one
    reused buffer, every buffer is decrypted as a whole, and each engine
    result shorter than the output block size is left-padded with zeros
    before it is appended to the output. The RSA primitive, the PEM reader
    and the block sizes belong to the external cryptography library and are
    left abstract. */
module Crypto {
  import opened Types

  /** The public key a PEM text decodes to. */
  datatype KeyParameter = KeyParameter(modulus: nat, exponent: nat)

  /** The external RSA engine: the PEM reader (`None` when the text does
      not decode to a key), the block sizes for decryption with a key, and
      the primitive itself (`None` when it throws `DataLengthException`). */
  datatype Rsa = Rsa(
    readKey: string -> Option<KeyParameter>,
    inputBlockSize: KeyParameter -> nat,
    outputBlockSize: KeyParameter -> nat,
    processBlock: (KeyParameter, Bytes) -> Option<Bytes>)

  /** The stream handed back: its contents and its position. */
  datatype MemoryStream = MemoryStream(data: Bytes, position: nat)

  /** A cancellation token, as the answer it gives when it is checked just
      before chunk `j` is processed. */
  type Cancellation = nat -> bool

  /** `ThrowIfCancellationRequested` before chunk `j`; a missing token is
      `CancellationToken.None`, which is never cancelled. */
  predicate Cancelled(token: Option<Cancellation>, j: nat)
  {
    token.Some? && token.value(j)
  }

  function Zeros(n: nat): (z: Bytes)
    ensures |z| == n && forall i :: 0 <= i < n ==> z[i] == 0
  {
    seq(n, _ => 0)
  }

  /** How many bytes `Read(buffer, 0, size)` copies from `position`. */
  function ReadCount(input: Bytes, position: nat, size: nat): (count: nat)
    requires position <= |input|
    ensures count <= size && position + count <= |input|
    ensures count == 0 <==> size == 0 || position == |input|
  {
    Min(size, |input| - position)
  }

  /** The buffer after a `Read` from `position`: the bytes read at its
      front, and what it held before behind them. */
  function Refill(input: Bytes, position: nat, buffer: Bytes): (r: Bytes)
    requires position <= |input|
    ensures |r| == |buffer|
  {
    var count := ReadCount(input, position, |buffer|);
    input[position..position + count] + buffer[count..]
  }

  /** The buffers the loop decrypts, in order, when reading resumes at
      `position` with `buffer` holding what the last read left in it. The
      loop stops at the first read that copies nothing. */
  function Inputs(input: Bytes, position: nat, buffer: Bytes): (r: seq<Bytes>)
    requires position <= |input|
    ensures forall j :: 0 <= j < |r| ==> |r[j]| == |buffer|
    decreases |input| - position
  {
    var count := ReadCount(input, position, |buffer|);
    if count == 0 then []
    else
      var next := Refill(input, position, buffer);
      [next] + Inputs(input, position + count, next)
  }

  /** One read: the buffers from `position` on are the refilled buffer
      followed by those after it, or none when the read copies nothing. */
  lemma InputsStep(input: Bytes, position: nat, buffer: Bytes)
    requires position <= |input|
    ensures var count := ReadCount(input, position, |buffer|);
      Inputs(input, position, buffer) ==
        if count == 0 then []
        else [Refill(input, position, buffer)] + Inputs(input, position + count, Refill(input, position, buffer))
  {
  }

  /** An engine result is written as is when it has at least `size`
      bytes, and otherwise left-padded with zeros to `size` bytes. */
  function Pad(block: Bytes, size: nat): Bytes
  {
    if |block| < size then Zeros(size - |block|) + block else block
  }

  /** The work on one chunk: the token is checked, then the engine
      decrypts the whole buffer and its result is padded. */
  function Step(rsa: Rsa, key: KeyParameter, token: Option<Cancellation>, buffer: Bytes, chunk: nat): Result<Bytes>
  {
    if Cancelled(token, chunk) then Err(OperationCanceled)
    else
      match rsa.processBlock(key, buffer)
      case None => Err(DataLength)
      case Some(block) => Ok(Pad(block, rsa.outputBlockSize(key)))
  }

  /** A chunk fails with `OperationCanceledException` exactly when the
      token is cancelled before it, and with `DataLengthException` exactly
      when the engine then refuses it; otherwise its result is the engine's,
      behind as many zeros as it takes to fill an output block. */
  lemma StepOutcome(rsa: Rsa, key: KeyParameter, token: Option<Cancellation>, buffer: Bytes, chunk: nat)
    ensures var r := Step(rsa, key, token, buffer, chunk);
      && (r == Err(OperationCanceled) <==> Cancelled(token, chunk))
      && (r == Err(DataLength) <==> !Cancelled(token, chunk) && rsa.processBlock(key, buffer).None?)
      && (r.Ok? ==>
            var block := rsa.processBlock(key, buffer).value;
            && |r.value| == Max(|block|, rsa.outputBlockSize(key))
            && r.value[|r.value| - |block|..] == block
            && forall i :: 0 <= i < |r.value| - |block| ==> r.value[i] == 0)
  {
  }

  /** The buffers `pending`, the first of which is chunk `chunk`, worked
      on in order after `output` has been written: the first chunk that
      fails ends the loop with its exception. */
  function Emit(rsa: Rsa, key: KeyParameter, token: Option<Cancellation>, pending: seq<Bytes>,
                chunk: nat, output: Bytes): (r: Result<Bytes>)
    ensures r.Ok? ==> |output| <= |r.value| && r.value[..|output|] == output
    ensures r.Err? ==> r.error == OperationCanceled || r.error == DataLength
  {
    if |pending| == 0 then Ok(output)
    else
      match Step(rsa, key, token, pending[0], chunk)
      case Err(e) => Err(e)
      case Ok(block) => Emit(rsa, key, token, pending[1..], chunk + 1, output + block)
  }

  /** The loop as it runs: `count` bytes have just been read into
      `buffer`, reading resumes at `position`. */
  function Loop(rsa: Rsa, key: KeyParameter, token: Option<Cancellation>, input: Bytes, position: nat,
                buffer: Bytes, count: nat, chunk: nat, output: Bytes): Result<Bytes>
    requires position <= |input|
    decreases |input| - position, count
  {
    if count == 0 then Ok(output)
    else
      match Step(rsa, key, token, buffer, chunk)
      case Err(e) => Err(e)
      case Ok(block) =>
        var next := ReadCount(input, position, |buffer|);
        Loop(rsa, key, token, input, position + next, Refill(input, position, buffer), next, chunk + 1, output + block)
  }

  /** Running the loop is working on the buffers its reads produce. */
  lemma {:induction false} LoopIsEmit(rsa: Rsa, key: KeyParameter, token: Option<Cancellation>, input: Bytes,
                                      position: nat, buffer: Bytes, count: nat, chunk: nat, output: Bytes)
    requires position <= |input|
    ensures Loop(rsa, key, token, input, position, buffer, count, chunk, output) ==
      Emit(rsa, key, token, if count == 0 then [] else [buffer] + Inputs(input, position, buffer), chunk, output)
    decreases |input| - position, count
  {
    if count > 0 {
      var pending := [buffer] + Inputs(input, position, buffer);
      assert pending[0] == buffer && pending[1..] == Inputs(input, position, buffer);
      match Step(rsa, key, token, buffer, chunk)
      case Err(e) =>
      case Ok(block) =>
        var next := ReadCount(input, position, |buffer|);
        LoopIsEmit(rsa, key, token, input, position + next, Refill(input, position, buffer), next, chunk + 1,
                   output + block);
    }
  }

  /** The buffers decrypted for `file` with key `key`: the buffer starts
      out zeroed. */
  function Chunks(rsa: Rsa, key: KeyParameter, file: Bytes): seq<Bytes>
  {
    Inputs(file, 0, Zeros(rsa.inputBlockSize(key)))
  }

  /** What `DecryptRsa` returns: `ArgumentNullException` for a null file,
      then for a null key; `InvalidOperationException` for a key that does
      not decode; otherwise the decrypted blocks, in a stream rewound to
      its start. */
  function Decryption(file: Option<Bytes>, key: Option<string>, token: Option<Cancellation>,
                      rsa: Rsa): (r: Result<MemoryStream>)
    ensures r.Ok? ==> file.Some? && key.Some? && rsa.readKey(key.value).Some? && r.value.position == 0
  {
    if file.None? then Err(ArgumentNull("file"))
    else if key.None? then Err(ArgumentNull("key"))
    else
      match rsa.readKey(key.value)
      case None => Err(InvalidOperation)
      case Some(k) =>
        match Emit(rsa, k, token, Chunks(rsa, k, file.value), 0, [])
        case Err(e) => Err(e)
        case Ok(data) => Ok(MemoryStream(data, 0))
  }

  /** The loop runs once per started chunk of the input: `ceil(|input| /
      size)` times for a buffer of `size` bytes. */
  lemma {:induction false} InputsCount(input: Bytes, position: nat, buffer: Bytes)
    requires position <= |input| && |buffer| > 0
    ensures var chunks := |Inputs(input, position, buffer)|;
      && (chunks == 0 <==> position == |input|)
      && |input| - position <= chunks * |buffer|
      && (chunks > 0 ==> (chunks - 1) * |buffer| < |input| - position)
    decreases |input| - position
  {
    var count := ReadCount(input, position, |buffer|);
    if count > 0 {
      var next := Refill(input, position, buffer);
      InputsCount(input, position + count, next);
      var later := |Inputs(input, position + count, next)|;
      MulSucc(later, |buffer|);
    }
  }

  /** One more chunk is one more buffer's worth of bytes. */
  lemma MulSucc(a: nat, b: nat)
    ensures (a + 1) * b == a * b + b
  {
  }

  /** An input of `size` bytes or fewer is one chunk, padded with the
      zeros the buffer was created with. */
  lemma FirstChunkIsZeroFilled(rsa: Rsa, key: KeyParameter, file: Bytes)
    requires 0 < |file| <= rsa.inputBlockSize(key)
    ensures Chunks(rsa, key, file) == [file + Zeros(rsa.inputBlockSize(key) - |file|)]
  {
    var n := rsa.inputBlockSize(key);
    InputsStep(file, 0, Zeros(n));
    InputsStep(file, |file|, Refill(file, 0, Zeros(n)));
    assert file[0..|file|] == file;
    assert Zeros(n)[|file|..] == Zeros(n - |file|);
  }

  /** A short final chunk is decrypted together with the stale tail of the
      chunk before it: the buffer is reused, not cleared. */
  lemma ShortFinalChunkKeepsStaleBytes(rsa: Rsa, key: KeyParameter, file: Bytes)
    requires rsa.inputBlockSize(key) < |file| < 2 * rsa.inputBlockSize(key)
    ensures var n := rsa.inputBlockSize(key);
      var chunks := Chunks(rsa, key, file);
      |chunks| == 2 && chunks[0] == file[..n] && chunks[1] == file[n..] + file[|file| - n..n]
  {
    var n := rsa.inputBlockSize(key);
    var first := Refill(file, 0, Zeros(n));
    assert first == file[..n];
    var second := Refill(file, n, first);
    assert second == file[n..] + file[|file| - n..n];
    InputsStep(file, 0, Zeros(n));
    InputsStep(file, n, first);
    InputsStep(file, |file|, second);
  }

  /** The loop completes exactly when every chunk passes the token check
      and the engine. */
  lemma {:induction false} EmitOkIffEveryStepOk(rsa: Rsa, key: KeyParameter, token: Option<Cancellation>,
                                                pending: seq<Bytes>, chunk: nat, output: Bytes)
    ensures Emit(rsa, key, token, pending, chunk, output).Ok? <==>
      forall j :: 0 <= j < |pending| ==> Step(rsa, key, token, pending[j], chunk + j).Ok?
    decreases |pending|
  {
    if |pending| > 0 {
      assert forall j :: 1 <= j < |pending| ==> pending[1..][j - 1] == pending[j];
      match Step(rsa, key, token, pending[0], chunk)
      case Err(e) =>
      case Ok(block) =>
        EmitOkIffEveryStepOk(rsa, key, token, pending[1..], chunk + 1, output + block);
        assert forall j :: 1 <= j < |pending| ==>
          Step(rsa, key, token, pending[1..][j - 1], chunk + 1 + (j - 1)) == Step(rsa, key, token, pending[j], chunk + j);
    }
  }

  /** The loop fails only with `OperationCanceledException`, when the
      token is cancelled before some chunk, or with `DataLengthException`,
      when the engine refuses some chunk. */
  lemma {:induction false} EmitFailures(rsa: Rsa, key: KeyParameter, token: Option<Cancellation>,
                                        pending: seq<Bytes>, chunk: nat, output: Bytes)
    ensures var r := Emit(rsa, key, token, pending, chunk, output);
      && (r.Err? ==> r.error == OperationCanceled || r.error == DataLength)
      && (r == Err(OperationCanceled) ==> exists j :: chunk <= j < chunk + |pending| && Cancelled(token, j))
      && (r == Err(DataLength) ==> exists j :: 0 <= j < |pending| && rsa.processBlock(key, pending[j]).None?)
    decreases |pending|
  {
    if |pending| > 0 {
      var first := Step(rsa, key, token, pending[0], chunk);
      if first.Ok? {
        var rest := pending[1..];
        EmitFailures(rsa, key, token, rest, chunk + 1, output + first.value);
        var r := Emit(rsa, key, token, rest, chunk + 1, output + first.value);
        if r == Err(DataLength) {
          var j :| 0 <= j < |rest| && rsa.processBlock(key, rest[j]).None?;
          assert rest[j] == pending[j + 1];
        }
      }
    }
  }

  /** The token is only looked at before a chunk: one that is never
      cancelled at those moments changes nothing. */
  lemma {:induction false} UnobservedCancellationChangesNothing(rsa: Rsa, key: KeyParameter,
                                                                 token: Option<Cancellation>, pending: seq<Bytes>,
                                                                 chunk: nat, output: Bytes)
    requires forall j :: chunk <= j < chunk + |pending| ==> !Cancelled(token, j)
    ensures Emit(rsa, key, token, pending, chunk, output) == Emit(rsa, key, None, pending, chunk, output)
    decreases |pending|
  {
    if |pending| > 0 {
      assert Step(rsa, key, token, pending[0], chunk) == Step(rsa, key, None, pending[0], chunk);
      match Step(rsa, key, token, pending[0], chunk)
      case Err(e) =>
      case Ok(block) =>
        UnobservedCancellationChangesNothing(rsa, key, token, pending[1..], chunk + 1, output + block);
    }
  }

  /** Every engine result for this key fits in an output block. */
  ghost predicate Fits(rsa: Rsa, key: KeyParameter)
  {
    forall b :: rsa.processBlock(key, b).Some? ==> |rsa.processBlock(key, b).value| <= rsa.outputBlockSize(key)
  }

  /** A loop that completes wrote the first chunk's padded engine result,
      of exactly one output block when every result fits, and went on
      with the rest. */
  lemma EmitFirst(rsa: Rsa, key: KeyParameter, token: Option<Cancellation>,
                  pending: seq<Bytes>, chunk: nat, output: Bytes)
    requires Fits(rsa, key)
    requires |pending| > 0
    requires Emit(rsa, key, token, pending, chunk, output).Ok?
    ensures rsa.processBlock(key, pending[0]).Some?
    ensures var block := Pad(rsa.processBlock(key, pending[0]).value, rsa.outputBlockSize(key));
      && |block| == rsa.outputBlockSize(key)
      && Emit(rsa, key, token, pending, chunk, output) == Emit(rsa, key, token, pending[1..], chunk + 1, output + block)
  {
  }

  /** When every engine result fits, each chunk's padded result takes
      exactly one output block: the output grows by one block per chunk and
      what was written before is kept. */
  lemma {:induction false} EmitLength(rsa: Rsa, key: KeyParameter, token: Option<Cancellation>,
                                      pending: seq<Bytes>, chunk: nat, output: Bytes)
    requires Fits(rsa, key)
    requires Emit(rsa, key, token, pending, chunk, output).Ok?
    ensures var data := Emit(rsa, key, token, pending, chunk, output).value;
      && |data| == |output| + |pending| * rsa.outputBlockSize(key)
      && data[..|output|] == output
    decreases |pending|
  {
    if |pending| > 0 {
      var size := rsa.outputBlockSize(key);
      EmitFirst(rsa, key, token, pending, chunk, output);
      var block := Pad(rsa.processBlock(key, pending[0]).value, size);
      EmitLength(rsa, key, token, pending[1..], chunk + 1, output + block);
      assert (|pending| - 1) * size + size == |pending| * size;
      var data := Emit(rsa, key, token, pending, chunk, output).value;
      assert data[..|output|] == (output + block)[..|output|];
    }
  }

  /** The first output block is what the first chunk decrypts to, padded. */
  lemma EmitFirstBlock(rsa: Rsa, key: KeyParameter, token: Option<Cancellation>,
                       pending: seq<Bytes>, chunk: nat, output: Bytes)
    requires Fits(rsa, key)
    requires Emit(rsa, key, token, pending, chunk, output).Ok?
    requires |pending| > 0
    ensures rsa.processBlock(key, pending[0]).Some?
    ensures var data := Emit(rsa, key, token, pending, chunk, output).value;
      var size := rsa.outputBlockSize(key);
      && |output| + size <= |data|
      && data[|output|..|output| + size] == Pad(rsa.processBlock(key, pending[0]).value, size)
  {
    var size := rsa.outputBlockSize(key);
    EmitFirst(rsa, key, token, pending, chunk, output);
    var block := Pad(rsa.processBlock(key, pending[0]).value, size);
    EmitLength(rsa, key, token, pending[1..], chunk + 1, output + block);
    var data := Emit(rsa, key, token, pending, chunk, output).value;
    assert data[|output|..|output| + size] == (output + block)[|output|..];
  }

  /** Output block `j` is what chunk `j` decrypts to, padded: the blocks
      are written in input order. */
  lemma {:induction false} EmitBlockAt(rsa: Rsa, key: KeyParameter, token: Option<Cancellation>,
                                       pending: seq<Bytes>, chunk: nat, output: Bytes, j: nat)
    requires Fits(rsa, key)
    requires Emit(rsa, key, token, pending, chunk, output).Ok?
    requires j < |pending|
    ensures rsa.processBlock(key, pending[j]).Some?
    ensures var data := Emit(rsa, key, token, pending, chunk, output).value;
      var size := rsa.outputBlockSize(key);
      && |output| + j * size + size <= |data|
      && data[|output| + j * size..|output| + j * size + size] == Pad(rsa.processBlock(key, pending[j]).value, size)
    decreases j
  {
    if j == 0 {
      EmitFirstBlock(rsa, key, token, pending, chunk, output);
    } else {
      var size := rsa.outputBlockSize(key);
      EmitFirst(rsa, key, token, pending, chunk, output);
      var block := Pad(rsa.processBlock(key, pending[0]).value, size);
      EmitBlockAt(rsa, key, token, pending[1..], chunk + 1, output + block, j - 1);
      assert pending[1..][j - 1] == pending[j];
      assert (j - 1) * size == j * size - size;
      assert |output + block| + (j - 1) * size == |output| + j * size;
    }
  }

  /** A successful decryption is a stream at its start holding one output
      block per started input block of the file. */
  lemma DecryptedStreamSize(file: Bytes, key: string, token: Option<Cancellation>, rsa: Rsa)
    requires rsa.readKey(key).Some?
    requires Fits(rsa, rsa.readKey(key).value)
    requires rsa.inputBlockSize(rsa.readKey(key).value) > 0
    requires Decryption(Some(file), Some(key), token, rsa).Ok?
    ensures var k := rsa.readKey(key).value;
      var stream := Decryption(Some(file), Some(key), token, rsa).value;
      var chunks := |Chunks(rsa, k, file)|;
      && stream.position == 0
      && |stream.data| == chunks * rsa.outputBlockSize(k)
      && |file| <= chunks * rsa.inputBlockSize(k)
      && (chunks > 0 ==> (chunks - 1) * rsa.inputBlockSize(k) < |file|)
  {
    var k := rsa.readKey(key).value;
    EmitLength(rsa, k, token, Chunks(rsa, k, file), 0, []);
    InputsCount(file, 0, Zeros(rsa.inputBlockSize(k)));
  }

  /** The exceptions `DecryptRsa` can end with: the two null checks, in
      that order, a key that does not decode, a cancellation before some
      chunk, or a chunk the engine refuses. */
  lemma DecryptionErrors(file: Option<Bytes>, key: Option<string>, token: Option<Cancellation>, rsa: Rsa)
    ensures var r := Decryption(file, key, token, rsa);
      && (file.None? ==> r == Err(ArgumentNull("file")))
      && (file.Some? && key.None? ==> r == Err(ArgumentNull("key")))
      && (file.Some? && key.Some? ==> (r == Err(InvalidOperation) <==> rsa.readKey(key.value).None?))
      && (r.Err? ==> r.error in {ArgumentNull("file"), ArgumentNull("key"), InvalidOperation, OperationCanceled, DataLength})
  {
    if file.Some? && key.Some? && rsa.readKey(key.value).Some? {
      var k := rsa.readKey(key.value).value;
      EmitFailures(rsa, k, token, Chunks(rsa, k, file.value), 0, []);
    }
  }

  /** `inputStream.Read(buffer, 0, buffer.Length)`: copies the next bytes
      of the input to the front of the buffer and leaves the rest of it as
      it was. */
  method Read(input: Bytes, position: nat, buffer: array<Byte>) returns (count: nat)
    requires position <= |input|
    modifies buffer
    ensures count == ReadCount(input, position, buffer.Length)
    ensures buffer[..] == Refill(input, position, old(buffer[..]))
  {
    count := Min(buffer.Length, |input| - position);
    var i := 0;
    while i < count
      invariant 0 <= i <= count
      invariant forall j :: 0 <= j < i ==> buffer[j] == input[position + j]
      invariant forall j :: i <= j < buffer.Length ==> buffer[j] == old(buffer[j])
    {
      buffer[i] := input[position + i];
      i := i + 1;
    }
    assert buffer[..] == input[position..position + count] + old(buffer[..])[count..];
  }

  /** `outputBlock.CopyTo(padded, offset)`: overwrites the part of the
      target that starts at `offset`. */
  method CopyTo(source: Bytes, target: array<Byte>, offset: nat)
    requires offset + |source| <= target.Length
    modifies target
    ensures target[..] == old(target[..offset]) + source + old(target[offset + |source|..])
  {
    var i := 0;
    while i < |source|
      invariant 0 <= i <= |source|
      invariant forall j :: 0 <= j < offset ==> target[j] == old(target[j])
      invariant forall j :: 0 <= j < i ==> target[offset + j] == source[j]
      invariant forall j :: offset + i <= j < target.Length ==> target[j] == old(target[j])
    {
      target[offset + i] := source[i];
      i := i + 1;
    }
  }

  /** The padding step of the loop: a result shorter than `size` is copied
      to the end of a zeroed block of `size` bytes. */
  method PadBlock(outputBlock: Bytes, size: nat) returns (block: Bytes)
    ensures |outputBlock| < size ==> |block| == size && block[size - |outputBlock|..] == outputBlock
    ensures |outputBlock| < size ==> forall i :: 0 <= i < size - |outputBlock| ==> block[i] == 0
    ensures |outputBlock| >= size ==> block == outputBlock
    ensures block == Pad(outputBlock, size)
  {
    block := outputBlock;
    var requiredPadding := size - |outputBlock|;
    if requiredPadding > 0 {
      var padded := new Byte[size](_ => 0);
      CopyTo(outputBlock, padded, requiredPadding);
      assert padded[..] == Zeros(requiredPadding) + outputBlock;
      block := padded[..];
    }
  }

  /** `DecryptRsa(file, key, token)`: the argument checks, the key, then
      the block loop; the stream comes back rewound to its start. */
  method DecryptRsa(file: Option<Bytes>, key: Option<string>, token: Option<Cancellation>, rsa: Rsa)
    returns (r: Result<MemoryStream>)
    ensures r == Decryption(file, key, token, rsa)
  {
    if file.None? {
      return Err(ArgumentNull("file"));
    }
    if key.None? {
      return Err(ArgumentNull("key"));
    }
    var keyParameter := rsa.readKey(key.value);
    if keyParameter.None? {
      return Err(InvalidOperation);
    }
    var output := DecryptBlocks(file.value, keyParameter.value, token, rsa);
    if output.Err? {
      return Err(output.error);
    }
    return Ok(MemoryStream(output.value, 0));
  }

  /** One pass of the loop over a chunk that the token and the engine let
      through. */
  lemma LoopStep(rsa: Rsa, key: KeyParameter, token: Option<Cancellation>, input: Bytes, position: nat,
                 buffer: Bytes, count: nat, chunk: nat, output: Bytes)
    requires position <= |input| && count > 0
    requires !Cancelled(token, chunk) && rsa.processBlock(key, buffer).Some?
    ensures var next := ReadCount(input, position, |buffer|);
      Loop(rsa, key, token, input, position, buffer, count, chunk, output) ==
      Loop(rsa, key, token, input, position + next, Refill(input, position, buffer), next, chunk + 1,
           output + Pad(rsa.processBlock(key, buffer).value, rsa.outputBlockSize(key)))
  {
  }

  /** The block loop of `DecryptRsa`: a zeroed buffer of the input block
      size is refilled from the input until a read copies nothing, and each
      buffer is decrypted and written out padded. */
  method DecryptBlocks(input: Bytes, k: KeyParameter, token: Option<Cancellation>, rsa: Rsa)
    returns (r: Result<Bytes>)
    ensures r == Emit(rsa, k, token, Chunks(rsa, k, input), 0, [])
  {
    var inputBlock := new Byte[rsa.inputBlockSize(k)](_ => 0);
    assert inputBlock[..] == Zeros(rsa.inputBlockSize(k));
    var count := Read(input, 0, inputBlock);
    ghost var first := inputBlock[..];
    r := ProcessChunks(input, k, token, rsa, inputBlock, count);
    LoopIsEmit(rsa, k, token, input, count, first, count, 0, []);
    InputsStep(input, 0, Zeros(rsa.inputBlockSize(k)));
  }

  /** The loop itself, entered after the first read has copied
      `firstCount` bytes into `inputBlock`: it decrypts the buffer while the last read
      copied something, failing at the first chunk the token or the engine
      stops. */
  method ProcessChunks(input: Bytes, k: KeyParameter, token: Option<Cancellation>, rsa: Rsa,
                       inputBlock: array<Byte>, firstCount: nat) returns (r: Result<Bytes>)
    requires firstCount <= |input|
    modifies inputBlock
    ensures r == Loop(rsa, k, token, input, firstCount, old(inputBlock[..]), firstCount, 0, [])
  {
    var outputBlockSize := rsa.outputBlockSize(k);
    var output: Bytes := [];
    var chunk := 0;
    var position: nat := firstCount;
    var count := firstCount;
    ghost var spec := Loop(rsa, k, token, input, position, inputBlock[..], count, 0, []);
    while count > 0
      invariant position <= |input|
      invariant spec == Loop(rsa, k, token, input, position, inputBlock[..], count, chunk, output)
      decreases |input| - position, count
    {
      if Cancelled(token, chunk) {
        return Err(OperationCanceled);
      }
      var processed := rsa.processBlock(k, inputBlock[..]);
      if processed.None? {
        return Err(DataLength);
      }
      var outputBlock := PadBlock(processed.value, outputBlockSize);
      LoopStep(rsa, k, token, input, position, inputBlock[..], count, chunk, output);
      output := output + outputBlock;
      chunk := chunk + 1;
      count := Read(input, position, inputBlock);
      position := position + count;
    }
    return Ok(output);
  }
}
