/**
 * `SocketServer`: a command table, the `keepListening` flag, and the
 * length-prefixed framing both ends use. A frame is the payload's length as a
 * 32-bit integer in the host's byte order (`BitConverter`; the order is a
 * parameter here) followed by the payload. Payloads are opaque bytes; the
 * binary serialiser that produces them is not part of this model.
 */
module SocketServer {
  import opened Wrappers
  import opened Bytes

  const Int32Min := -0x8000_0000
  const Int32Max := 0x7FFF_FFFF
  const UInt32Modulus := 0x1_0000_0000
  /** `StateObject.BufferSize`: the server's receive buffer. */
  const BufferSize := 16384
  /** The client's receive buffer. */
  const ClientBufferSize := 819200
  const DuplicateKey := "An item with the same key has already been added."

  /** `BitConverter.GetBytes(int)`: the two's complement bytes in the host order. */
  function GetBytes(v: int, littleEndian: bool): (b: seq<byte>)
    requires Int32Min <= v <= Int32Max
    ensures |b| == 4
  {
    var u := if v < 0 then v + UInt32Modulus else v;
    var bytes := ToLittleEndian(u, 4);
    if littleEndian then bytes else Reverse(bytes)
  }

  /** `BitConverter.ToInt32(b, 0)`: the first four bytes as a two's complement integer. */
  function ToInt32(b: seq<byte>, littleEndian: bool): (v: int)
    requires |b| >= 4
    ensures Int32Min <= v <= Int32Max
  {
    var bytes := if littleEndian then b[..4] else Reverse(b[..4]);
    var u := FromLittleEndian(bytes);
    if u > Int32Max then u - UInt32Modulus else u
  }

  /** Reading back the bytes of an integer gives the integer, in either byte order. */
  lemma ToInt32GetBytes(v: int, littleEndian: bool)
    requires Int32Min <= v <= Int32Max
    ensures ToInt32(GetBytes(v, littleEndian), littleEndian) == v
  {
    var u := if v < 0 then v + UInt32Modulus else v;
    FromToLittleEndian(u, 4);
    var bytes := ToLittleEndian(u, 4);
    if !littleEndian {
      ReverseReverse(bytes);
    }
    assert GetBytes(v, littleEndian)[..4] == GetBytes(v, littleEndian);
  }

  /** The `(int)` cast of a stream length: the low 32 bits as a two's complement integer. */
  function ToInt32Unchecked(n: nat): (v: int)
    ensures Int32Min <= v <= Int32Max
    ensures n <= Int32Max ==> v == n
  {
    (n + 0x8000_0000) % UInt32Modulus - 0x8000_0000
  }

  /**
   * `EncodeData`: the length header followed by the payload. Decoding the
   * frame gives the payload back, and for a payload that fits an `int` the
   * header reads back as its length.
   */
  function EncodeData(payload: seq<byte>, littleEndian: bool): (frame: seq<byte>)
    ensures |frame| == |payload| + 4
    ensures frame[4..] == payload
    ensures DecodeData(frame) == payload
    ensures |payload| <= Int32Max ==> ToInt32(frame, littleEndian) == |payload|
  {
    var header := GetBytes(ToInt32Unchecked(|payload|), littleEndian);
    ToInt32GetBytes(ToInt32Unchecked(|payload|), littleEndian);
    assert (header + payload)[..4] == header == header[..4];
    header + payload
  }

  /** `DecodeData`: what follows the first four bytes (nothing when the stream is shorter). */
  function DecodeData(frame: seq<byte>): (payload: seq<byte>)
    ensures |frame| >= 4 ==> frame == frame[..4] + payload
    ensures |frame| < 4 ==> payload == []
  {
    if |frame| >= 4 then frame[4..] else []
  }

  /** The concatenation of the chunks. */
  function Concat(chunks: seq<seq<byte>>): (s: seq<byte>)
    ensures |chunks| > 0 ==> |s| >= |chunks[0]| && s[..|chunks[0]|] == chunks[0]
  {
    if chunks == [] then [] else chunks[0] + Concat(chunks[1..])
  }

  lemma {:induction false} ConcatAppend(chunks: seq<seq<byte>>, i: nat)
    requires i < |chunks|
    ensures Concat(chunks[..i + 1]) == Concat(chunks[..i]) + chunks[i]
  {
    if i > 0 {
      assert chunks[..i + 1][1..] == chunks[1..][..i];
      assert chunks[..i][1..] == chunks[1..][..i - 1];
      ConcatAppend(chunks[1..], i - 1);
    } else {
      assert chunks[..1][1..] == [];
    }
  }

  /** A prefix of the chunks concatenates to a prefix of the whole, strictly shorter when the rest is non-empty. */
  lemma {:induction false} ConcatPrefix(chunks: seq<seq<byte>>, i: nat)
    requires i <= |chunks|
    requires forall k :: 0 <= k < |chunks| ==> |chunks[k]| > 0
    ensures Concat(chunks[..i]) <= Concat(chunks)
    ensures i < |chunks| ==> |Concat(chunks[..i])| < |Concat(chunks)|
    decreases |chunks| - i
  {
    if i < |chunks| {
      ConcatPrefix(chunks, i + 1);
      ConcatAppend(chunks, i);
    } else {
      assert chunks[..i] == chunks;
    }
  }

  /** What a completed receive did with the command. */
  datatype Invocation = Invocation(handler: HandlerId, data: seq<byte>)

  /** Identity of a registered command handler. */
  type HandlerId = nat

  /** `CommandObject`: the command name and its data (opaque here). */
  datatype CommandObject = CommandObject(name: string, data: seq<byte>)

  /** The outcome of one `ReadCallback`. */
  datatype ReceiveStep = Closed | ReceiveMore | Processed(outcome: Result<Invocation>)

  /** `StateObject`: the receive buffer, the expected length and the bytes received so far. */
  class StateObject {
    var numBytesExpected: int
    var buffer: seq<byte>
    var data: seq<byte>

    ghost predicate Valid()
      reads this
    {
      |buffer| == BufferSize
    }

    constructor ()
      ensures Valid() && numBytesExpected == 0 && data == []
      ensures forall k :: 0 <= k < BufferSize ==> buffer[k] == 0
    {
      numBytesExpected := 0;
      buffer := seq(BufferSize, _ => 0);
      data := [];
    }
  }

  class SocketServer {
    var commands: map<string, HandlerId>
    var keepListening: bool
    /** Connections whose receive has been started by `AcceptCallback`. */
    var acceptedConnections: nat

    constructor ()
      ensures commands == map[] && keepListening && acceptedConnections == 0
    {
      commands := map[];
      keepListening := true;
      acceptedConnections := 0;
    }

    /** `AddCommand`: registers a handler; a name already present fails and changes nothing. */
    method AddCommand(commandName: string, handler: HandlerId) returns (r: Result<()>)
      modifies this`commands
      ensures r.Failure? <==> commandName in old(commands)
      ensures r.Failure? ==> r.error == DuplicateKey && commands == old(commands)
      ensures r.Success? ==> commands == old(commands)[commandName := handler]
      ensures r.Success? ==> ProcessCommand(CommandObject(commandName, [])) == Success(Invocation(handler, []))
    {
      if commandName in commands {
        return Failure(DuplicateKey);
      }
      commands := commands[commandName := handler];
      r := Success(());
    }

    /**
     * `ProcessCommand`: the registered handler invoked with the command's
     * data, or a failure naming the unknown command.
     */
    function ProcessCommand(command: CommandObject): (r: Result<Invocation>)
      reads this
      ensures r.Success? <==> command.name in commands
      ensures r.Success? ==> r.value.handler == commands[command.name] && r.value.data == command.data
      ensures r.Failure? ==> r.error == "Cannot find a handler for command: " + command.name
    {
      if command.name !in commands then Failure("Cannot find a handler for command: " + command.name)
      else Success(Invocation(commands[command.name], command.data))
    }

    /** `StartListening`: the flag is raised before the accept loop (which is not modelled). */
    method StartListening()
      modifies this`keepListening
      ensures keepListening
    {
      keepListening := true;
    }

    /** `StopListening`. */
    method StopListening()
      modifies this`keepListening
      ensures !keepListening
    {
      keepListening := false;
    }

    /** `AcceptCallback`: starts receiving on the connection only while listening. */
    method AcceptCallback() returns (accepted: bool)
      modifies this`acceptedConnections
      ensures accepted == keepListening
      ensures acceptedConnections == old(acceptedConnections) + (if accepted then 1 else 0)
    {
      accepted := keepListening;
      if keepListening {
        acceptedConnections := acceptedConnections + 1;
      }
    }

    /**
     * `ReadCallback` for one receive of `received` into the state's buffer.
     * The expected length is parsed from the buffer while it is still 0; the
     * message is complete exactly when the data holds expected + 4 bytes, and
     * is then decoded (`deserialise` stands for the binary deserialiser) and
     * processed. An empty receive ends the connection.
     */
    method ReadCallback(state: StateObject, received: seq<byte>, littleEndian: bool, deserialise: seq<byte> -> CommandObject)
      returns (step: ReceiveStep)
      requires state.Valid() && |received| <= BufferSize
      modifies state
      ensures state.Valid()
      ensures received == [] ==> step == Closed && state.data == old(state.data)
      ensures received == [] ==> state.buffer == old(state.buffer) && state.numBytesExpected == old(state.numBytesExpected)
      ensures received != [] ==> state.buffer == received + old(state.buffer)[|received|..]
      ensures received != [] ==> state.data == old(state.data) + received
      ensures received != [] ==>
        state.numBytesExpected == if old(state.numBytesExpected) == 0 then ToInt32(state.buffer, littleEndian) else old(state.numBytesExpected)
      ensures received != [] && |state.data| != state.numBytesExpected + 4 ==> step == ReceiveMore
      ensures received != [] && |state.data| == state.numBytesExpected + 4 ==>
        step == Processed(ProcessCommand(deserialise(DecodeData(state.data))))
    {
      if received == [] {
        return Closed;
      }
      state.buffer := received + state.buffer[|received|..];
      state.data := state.data + received;
      if state.numBytesExpected == 0 {
        state.numBytesExpected := ToInt32(state.buffer, littleEndian);
      }
      if |state.data| != state.numBytesExpected + 4 {
        step := ReceiveMore;
      } else {
        step := Processed(ProcessCommand(deserialise(DecodeData(state.data))));
      }
    }

    /**
     * One connection: receives are chained until the message is processed or
     * the chunks run out. When the client's frame arrives in non-empty chunks
     * that fit the buffer, the first holding the whole length header, the
     * message completes with the last chunk and its payload is processed.
     */
    method ReceiveMessage(chunks: seq<seq<byte>>, littleEndian: bool, deserialise: seq<byte> -> CommandObject, ghost payload: seq<byte>)
      returns (consumed: nat, step: ReceiveStep)
      requires forall k :: 0 <= k < |chunks| ==> |chunks[k]| <= BufferSize
      ensures consumed <= |chunks|
      ensures Framed(chunks, payload, littleEndian) && |chunks[0]| >= 4 ==>
        consumed == |chunks| && step == Processed(ProcessCommand(deserialise(payload)))
    {
      ghost var framed := Framed(chunks, payload, littleEndian) && |chunks[0]| >= 4;
      var state := new StateObject();
      consumed := 0;
      step := ReceiveMore;
      while consumed < |chunks| && step == ReceiveMore
        invariant consumed <= |chunks| && state.Valid()
        invariant state.data == Concat(chunks[..consumed])
        invariant consumed == 0 ==> state.numBytesExpected == 0
        invariant framed && consumed > 0 ==> state.numBytesExpected == |payload|
        invariant framed && consumed < |chunks| ==> step == ReceiveMore
        invariant framed && consumed == |chunks| ==> step == Processed(ProcessCommand(deserialise(payload)))
      {
        ConcatAppend(chunks, consumed);
        ghost var expected, buffer := state.numBytesExpected, state.buffer;
        step := ReadCallback(state, chunks[consumed], littleEndian, deserialise);
        if framed {
          FramedReceive(chunks, payload, littleEndian, consumed, expected, state.buffer, buffer[|chunks[consumed]|..]);
        }
        consumed := consumed + 1;
      }
    }
  }

  /** The chunks are a non-empty split, into non-empty pieces, of the frame of a payload that fits an `int`. */
  ghost predicate Framed(chunks: seq<seq<byte>>, payload: seq<byte>, littleEndian: bool)
  {
    && Concat(chunks) == EncodeData(payload, littleEndian)
    && |payload| <= Int32Max
    && |chunks| > 0
    && (forall k :: 0 <= k < |chunks| ==> |chunks[k]| > 0)
  }

  /** A buffer starting with the whole header of the first chunk reads back the payload length. */
  lemma FramedHeader(chunks: seq<seq<byte>>, payload: seq<byte>, littleEndian: bool, buffer: seq<byte>)
    requires Framed(chunks, payload, littleEndian) && |chunks[0]| >= 4
    requires |buffer| >= 4 && buffer[..4] == chunks[0][..4]
    ensures ToInt32(buffer, littleEndian) == |payload|
  {
    var frame := EncodeData(payload, littleEndian);
    assert frame[..|chunks[0]|] == chunks[0];
    assert buffer[..4] == frame[..4];
  }

  /**
   * One receive of a framed message: the chunk is not empty, the expected
   * length read from the buffer (or kept) is the payload's, and the data is
   * complete exactly with the last chunk.
   */
  lemma FramedReceive(chunks: seq<seq<byte>>, payload: seq<byte>, littleEndian: bool, i: nat, expected: int, buffer: seq<byte>, rest: seq<byte>)
    requires Framed(chunks, payload, littleEndian) && |chunks[0]| >= 4 && i < |chunks|
    requires i == 0 ==> expected == 0
    requires i > 0 ==> expected == |payload|
    requires buffer == chunks[i] + rest && |buffer| >= 4
    ensures chunks[i] != []
    ensures (if expected == 0 then ToInt32(buffer, littleEndian) else expected) == |payload|
    ensures |Concat(chunks[..i + 1])| == |payload| + 4 <==> i + 1 == |chunks|
    ensures i + 1 == |chunks| ==> DecodeData(Concat(chunks[..i + 1])) == payload
  {
    FramedProgress(chunks, payload, littleEndian, i);
    if i == 0 {
      assert buffer[..4] == chunks[0][..4];
      FramedHeader(chunks, payload, littleEndian, buffer);
    }
  }

  /** Receiving chunk `i` completes the frame exactly when it is the last chunk; only a non-empty payload has a second chunk. */
  lemma FramedProgress(chunks: seq<seq<byte>>, payload: seq<byte>, littleEndian: bool, i: nat)
    requires Framed(chunks, payload, littleEndian) && |chunks[0]| >= 4 && i < |chunks|
    ensures |Concat(chunks[..i + 1])| == |payload| + 4 <==> i + 1 == |chunks|
    ensures i + 1 == |chunks| ==> DecodeData(Concat(chunks[..i + 1])) == payload
    ensures i >= 1 ==> |payload| > 0
  {
    ConcatPrefix(chunks, i + 1);
    ConcatPrefix(chunks, i);
    if i + 1 == |chunks| {
      assert chunks[..i + 1] == chunks;
    }
    if i >= 1 {
      ConcatPrefix(chunks, 1);
      assert chunks[..1] == [chunks[0]];
      assert Concat([chunks[0]]) == chunks[0] + Concat([]);
    }
  }

  /** The client's receive loop state as written: its buffer, the bytes received, their count and the expected length. */
  datatype ClientState = ClientState(buffer: seq<byte>, received: seq<byte>, totalNumBytes: int, numBytesExpected: int, allDone: bool)

  /** All chunks fit the client's buffer. */
  predicate ClientChunks(chunks: seq<seq<byte>>)
  {
    forall k :: 0 <= k < |chunks| ==> |chunks[k]| <= ClientBufferSize
  }

  /**
   * The state of the client's loop after reading `chunks`, as written: the
   * length is parsed from the current read buffer once more than 4 bytes have
   * arrived, and the loop is done once expected + 4 equals the total, which
   * already holds at a total of 4 while the length is still unparsed.
   */
  function ClientAfter(chunks: seq<seq<byte>>, littleEndian: bool): (st: ClientState)
    requires ClientChunks(chunks)
    ensures |st.buffer| == ClientBufferSize
    ensures st.received == Concat(chunks) && st.totalNumBytes == |st.received|
  {
    if chunks == [] then ClientState(seq(ClientBufferSize, _ => 0), [], 0, 0, false)
    else
      ConcatAppend(chunks, |chunks| - 1);
      assert chunks[..|chunks|] == chunks;
      ClientStep(ClientAfter(chunks[..|chunks| - 1], littleEndian), chunks[|chunks| - 1], littleEndian)
  }

  /** One pass of the client's loop body on `chunk`. */
  function ClientStep(st: ClientState, chunk: seq<byte>, littleEndian: bool): (next: ClientState)
    requires |st.buffer| == ClientBufferSize && |chunk| <= ClientBufferSize
    ensures |next.buffer| == ClientBufferSize
    ensures next.received == st.received + chunk && next.totalNumBytes == st.totalNumBytes + |chunk|
  {
    var buffer := chunk + st.buffer[|chunk|..];
    var total := st.totalNumBytes + |chunk|;
    var expected := if st.numBytesExpected == 0 && total > 4 then ToInt32(buffer, littleEndian) else st.numBytesExpected;
    ClientState(buffer, st.received + chunk, total, expected, st.allDone || expected + 4 == total)
  }

  lemma ClientAfterAppend(chunks: seq<seq<byte>>, littleEndian: bool, i: nat)
    requires ClientChunks(chunks) && i < |chunks|
    ensures ClientAfter(chunks[..i + 1], littleEndian) == ClientStep(ClientAfter(chunks[..i], littleEndian), chunks[i], littleEndian)
  {
    assert chunks[..i + 1][..i] == chunks[..i];
  }

  /** Once done, the loop stays done: the first read after which it is done is where it stops. */
  lemma {:induction false} ClientDoneSticks(chunks: seq<seq<byte>>, littleEndian: bool, i: nat, j: nat)
    requires ClientChunks(chunks) && i <= j <= |chunks|
    requires ClientAfter(chunks[..i], littleEndian).allDone
    ensures ClientAfter(chunks[..j], littleEndian).allDone
    decreases j - i
  {
    if i < j {
      ClientAfterAppend(chunks, littleEndian, i);
      ClientDoneSticks(chunks, littleEndian, i + 1, j);
    }
  }

  /**
   * The client side of `Send`, as written: reads until its loop is done (or
   * the chunks run out) and decodes what it received. It stops at the first
   * read after which the loop is done.
   */
  method SendReceive(chunks: seq<seq<byte>>, littleEndian: bool) returns (consumed: nat, response: Option<seq<byte>>)
    requires ClientChunks(chunks)
    ensures consumed <= |chunks|
    ensures consumed > 0 ==> !ClientAfter(chunks[..consumed - 1], littleEndian).allDone
    ensures response.Some? <==> ClientAfter(chunks[..consumed], littleEndian).allDone
    ensures response.None? ==> consumed == |chunks|
    ensures response.Some? ==> response.value == DecodeData(Concat(chunks[..consumed]))
  {
    var bytes: seq<byte> := seq(ClientBufferSize, _ => 0);
    var s: seq<byte> := [];
    var numBytesExpected := 0;
    var totalNumBytes := 0;
    var allDone := false;
    consumed := 0;
    while !allDone && consumed < |chunks|
      invariant consumed <= |chunks|
      invariant ClientAfter(chunks[..consumed], littleEndian) == ClientState(bytes, s, totalNumBytes, numBytesExpected, allDone)
      invariant consumed > 0 ==> !ClientAfter(chunks[..consumed - 1], littleEndian).allDone
    {
      var chunk := chunks[consumed];
      ClientAfterAppend(chunks, littleEndian, consumed);
      bytes := chunk + bytes[|chunk|..];
      s := s + chunk;
      totalNumBytes := totalNumBytes + |chunk|;
      if numBytesExpected == 0 && totalNumBytes > 4 {
        numBytesExpected := ToInt32(bytes, littleEndian);
      }
      if numBytesExpected + 4 == totalNumBytes {
        allDone := true;
      }
      consumed := consumed + 1;
    }
    response := if allDone then Some(DecodeData(s)) else None;
  }

  /**
   * The as-written client stops early: when the server's frame for a
   * non-empty payload arrives as its 4-byte header and then the payload, the
   * loop is done after the header alone and decodes an empty payload.
   */
  lemma ClientStopsOnBareHeader(payload: seq<byte>, littleEndian: bool)
    requires 0 < |payload| <= Int32Max
    ensures var frame := EncodeData(payload, littleEndian);
      var chunks := [frame[..4], frame[4..]];
      Framed(chunks, payload, littleEndian) &&
      ClientAfter(chunks[..1], littleEndian).allDone &&
      DecodeData(Concat(chunks[..1])) == [] != payload
  {
    var frame := EncodeData(payload, littleEndian);
    var chunks := [frame[..4], frame[4..]];
    HeaderThenPayloadFramed(payload, littleEndian);
    assert chunks[..1] == [frame[..4]];
    BareHeaderDone(frame[..4], littleEndian);
  }

  /** The frame of a non-empty payload sent as its header and then the payload is a framing of that payload. */
  lemma HeaderThenPayloadFramed(payload: seq<byte>, littleEndian: bool)
    requires 0 < |payload| <= Int32Max
    ensures var frame := EncodeData(payload, littleEndian);
      Framed([frame[..4], frame[4..]], payload, littleEndian)
  {
    var frame := EncodeData(payload, littleEndian);
    var chunks := [frame[..4], frame[4..]];
    assert chunks[1..] == [frame[4..]];
    assert chunks[1..][1..] == [];
    assert Concat(chunks[1..]) == frame[4..] + [];
    assert frame[..4] + frame[4..] == frame;
  }

  /** A first read of exactly four bytes ends the as-written loop with nothing to decode. */
  lemma BareHeaderDone(header: seq<byte>, littleEndian: bool)
    requires |header| == 4
    ensures ClientChunks([header])
    ensures ClientAfter([header], littleEndian).allDone
    ensures DecodeData(Concat([header])) == []
  {
    assert [header][..0] == [];
    assert Concat([header]) == header + [];
  }

  /** The corrected client's state: the bytes received and the length once the whole header has arrived. */
  datatype FrameReader = FrameReader(received: seq<byte>, numBytesExpected: Option<int>, allDone: bool)

  /**
   * The state after `chunks` of a client that parses the length from the first
   * four bytes of the stream once they have all arrived, and is done only when
   * the length is known and expected + 4 bytes are in.
   */
  function CorrectedClientAfter(chunks: seq<seq<byte>>, littleEndian: bool): (st: FrameReader)
    ensures st.received == Concat(chunks)
    ensures st.numBytesExpected.Some? <==> |st.received| >= 4
    ensures st.numBytesExpected.Some? ==> st.numBytesExpected.value == ToInt32(st.received, littleEndian)
  {
    if chunks == [] then FrameReader([], None, false)
    else
      ConcatAppend(chunks, |chunks| - 1);
      assert chunks[..|chunks|] == chunks;
      CorrectedClientStep(CorrectedClientAfter(chunks[..|chunks| - 1], littleEndian), chunks[|chunks| - 1], littleEndian)
  }

  /** One pass of the corrected loop body on `chunk`. */
  function CorrectedClientStep(st: FrameReader, chunk: seq<byte>, littleEndian: bool): (next: FrameReader)
    requires st.numBytesExpected.Some? <==> |st.received| >= 4
    requires st.numBytesExpected.Some? ==> st.numBytesExpected.value == ToInt32(st.received, littleEndian)
    ensures next.received == st.received + chunk
    ensures next.numBytesExpected.Some? <==> |next.received| >= 4
    ensures next.numBytesExpected.Some? ==> next.numBytesExpected.value == ToInt32(next.received, littleEndian)
  {
    var received := st.received + chunk;
    var expected := if st.numBytesExpected.None? && |received| >= 4 then Some(ToInt32(received, littleEndian)) else st.numBytesExpected;
    assert |st.received| >= 4 ==> received[..4] == st.received[..4];
    FrameReader(received, expected, st.allDone || (expected.Some? && expected.value + 4 == |received|))
  }

  lemma CorrectedClientAfterAppend(chunks: seq<seq<byte>>, littleEndian: bool, i: nat)
    requires i < |chunks|
    ensures CorrectedClientAfter(chunks[..i + 1], littleEndian) ==
      CorrectedClientStep(CorrectedClientAfter(chunks[..i], littleEndian), chunks[i], littleEndian)
  {
    assert chunks[..i + 1][..i] == chunks[..i];
  }

  /** Whether the corrected client's test passes on the bytes `received`. */
  predicate WholeFrameIn(received: seq<byte>, littleEndian: bool)
  {
    |received| >= 4 && ToInt32(received, littleEndian) + 4 == |received|
  }

  /** A corrected client not yet done becomes done on the next chunk exactly when the whole frame is in. */
  lemma CorrectedClientDoneStep(chunks: seq<seq<byte>>, littleEndian: bool, i: nat)
    requires 0 < i <= |chunks| && !CorrectedClientAfter(chunks[..i - 1], littleEndian).allDone
    ensures CorrectedClientAfter(chunks[..i], littleEndian).allDone <==> WholeFrameIn(Concat(chunks[..i]), littleEndian)
  {
    var prev := CorrectedClientAfter(chunks[..i - 1], littleEndian);
    CorrectedClientAfterAppend(chunks, littleEndian, i - 1);
    assert chunks[..i - 1 + 1] == chunks[..i];
    StepDoneIffWhole(prev, chunks[i - 1], littleEndian);
  }

  /** One step of a corrected client not yet done finishes exactly when the whole frame is in. */
  lemma StepDoneIffWhole(st: FrameReader, chunk: seq<byte>, littleEndian: bool)
    requires st.numBytesExpected.Some? <==> |st.received| >= 4
    requires st.numBytesExpected.Some? ==> st.numBytesExpected.value == ToInt32(st.received, littleEndian)
    requires !st.allDone
    ensures CorrectedClientStep(st, chunk, littleEndian).allDone <==> WholeFrameIn(st.received + chunk, littleEndian)
  {
  }

  /** Every prefix of a frame holding the whole header reads back the payload length. */
  lemma FramedPrefixHeader(chunks: seq<seq<byte>>, payload: seq<byte>, littleEndian: bool, i: nat)
    requires Framed(chunks, payload, littleEndian) && i <= |chunks|
    requires |Concat(chunks[..i])| >= 4
    ensures ToInt32(Concat(chunks[..i]), littleEndian) == |payload|
  {
    var frame := EncodeData(payload, littleEndian);
    var received := Concat(chunks[..i]);
    ConcatPrefix(chunks, i);
    assert received[..4] == frame[..4];
    assert ToInt32(received, littleEndian) == ToInt32(frame, littleEndian);
  }

  /** The corrected client is done on a frame exactly when the last chunk has arrived. */
  lemma {:induction false} CorrectedClientDoneAtEnd(chunks: seq<seq<byte>>, payload: seq<byte>, littleEndian: bool, i: nat)
    requires Framed(chunks, payload, littleEndian) && i <= |chunks|
    ensures CorrectedClientAfter(chunks[..i], littleEndian).allDone <==> i == |chunks|
  {
    if i == 0 {
      assert chunks[..0] == [];
    } else {
      CorrectedClientDoneAtEnd(chunks, payload, littleEndian, i - 1);
      CorrectedClientDoneNext(chunks, payload, littleEndian, i);
    }
  }

  /** The step of `CorrectedClientDoneAtEnd`: a client not yet done finishes on chunk `i` exactly when it is the last. */
  lemma CorrectedClientDoneNext(chunks: seq<seq<byte>>, payload: seq<byte>, littleEndian: bool, i: nat)
    requires Framed(chunks, payload, littleEndian) && 0 < i <= |chunks|
    requires !CorrectedClientAfter(chunks[..i - 1], littleEndian).allDone
    ensures CorrectedClientAfter(chunks[..i], littleEndian).allDone <==> i == |chunks|
  {
    CorrectedClientDoneStep(chunks, littleEndian, i);
    ConcatPrefix(chunks, i);
    var received := Concat(chunks[..i]);
    if |received| >= 4 {
      FramedPrefixHeader(chunks, payload, littleEndian, i);
    }
    if i == |chunks| {
      assert chunks[..i] == chunks;
    }
  }

  /**
   * The client side of `Send`, corrected: the length is parsed only once the
   * whole header is in. On any split of a frame into non-empty chunks it
   * reads every chunk and returns exactly the payload.
   */
  method SendReceiveCorrected(chunks: seq<seq<byte>>, littleEndian: bool, ghost payload: seq<byte>)
    returns (consumed: nat, response: Option<seq<byte>>)
    ensures consumed <= |chunks|
    ensures consumed > 0 ==> !CorrectedClientAfter(chunks[..consumed - 1], littleEndian).allDone
    ensures response.Some? <==> CorrectedClientAfter(chunks[..consumed], littleEndian).allDone
    ensures response.None? ==> consumed == |chunks|
    ensures response.Some? ==> response.value == DecodeData(Concat(chunks[..consumed]))
    ensures Framed(chunks, payload, littleEndian) ==> consumed == |chunks| && response == Some(payload)
  {
    var s: seq<byte> := [];
    var numBytesExpected: Option<int> := None;
    var allDone := false;
    consumed := 0;
    while !allDone && consumed < |chunks|
      invariant consumed <= |chunks|
      invariant CorrectedClientAfter(chunks[..consumed], littleEndian) == FrameReader(s, numBytesExpected, allDone)
      invariant consumed > 0 ==> !CorrectedClientAfter(chunks[..consumed - 1], littleEndian).allDone
    {
      var chunk := chunks[consumed];
      CorrectedClientAfterAppend(chunks, littleEndian, consumed);
      s := s + chunk;
      if numBytesExpected.None? && |s| >= 4 {
        numBytesExpected := Some(ToInt32(s, littleEndian));
      }
      if numBytesExpected.Some? && numBytesExpected.value + 4 == |s| {
        allDone := true;
      }
      consumed := consumed + 1;
    }
    response := if allDone then Some(DecodeData(s)) else None;
    assert response.Some? <==> CorrectedClientAfter(chunks[..consumed], littleEndian).allDone;
    if Framed(chunks, payload, littleEndian) {
      CorrectedClientReadsFrame(chunks, payload, littleEndian, consumed);
    }
  }

  /** On a frame, the corrected loop ends after the last chunk, and what it decodes is the payload. */
  lemma CorrectedClientReadsFrame(chunks: seq<seq<byte>>, payload: seq<byte>, littleEndian: bool, consumed: nat)
    requires Framed(chunks, payload, littleEndian) && consumed <= |chunks|
    requires CorrectedClientAfter(chunks[..consumed], littleEndian).allDone || consumed == |chunks|
    ensures consumed == |chunks| && CorrectedClientAfter(chunks[..consumed], littleEndian).allDone
    ensures DecodeData(Concat(chunks[..consumed])) == payload
  {
    CorrectedClientDoneAtEnd(chunks, payload, littleEndian, consumed);
    assert chunks[..|chunks|] == chunks;
  }
}
