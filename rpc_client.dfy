/** The one-shot RPC client: `call_method` opens a connection, writes one framed request,
    reads one framed response, closes the writer and builds the response envelope. */
module RpcClient {
  import opened Wrappers
  import opened ByteOrder
  import opened Framing
  import opened Streams
  import opened Envelope

  const DefaultSocketPath: string := "/run/logic/logic.sock"

  /** The serializer, taken as given: `packb`, which fails (None) on a value it cannot
      encode, and `unpackb`, which fails (None) on bytes that do not decode. */
  datatype Codec = Codec(pack: Value -> Option<seq<byte>>, unpack: seq<byte> -> Option<Value>)

  /** Why a call fails, in the order the call can meet them. */
  datatype CallError =
    | PackFailed                        // packb rejected the request
    | Transport(cause: FrameError)      // framing: oversized request, short read of the reply
    | UnpackFailed                      // unpackb rejected the reply body
    | NotAMapping                       // `CallResponse(**data)` on something that is not a dict
    | Invalid(errors: seq<FieldError>)  // the reply dict does not make a CallResponse

  /** Everything one call does: its steps on the connection, what it leaves unread on the
      reader, and what it returns. */
  datatype CallTrace = CallTrace(steps: seq<Step>, rest: seq<byte>, result: Result<CallResponse, CallError>)

  /** The bytes the steps put on the writer, in order. */
  function Sent(steps: seq<Step>): seq<byte>
  {
    if steps == [] then []
    else (if steps[0].Wrote? then steps[0].data else []) + Sent(steps[1..])
  }

  /** The order of the phases of a call: writing, then reading, then closing. */
  function Phase(step: Step): nat
  {
    match step
    case Wrote(_) => 0
    case Received(_) => 1
    case Closed => 2
  }

  /** The body of the request frame: the packed `request.dict()`. */
  function PackedRequest(request: CallRequest, codec: Codec): Option<seq<byte>>
  {
    codec.pack(Map(RequestToDict(request)))
  }

  /** What `call_method` does once its request is written, given the bytes the peer sends
      back before closing its end: `_read_msgpack`, then closing the writer and building
      the response. It never writes. */
  function AfterRequest(incoming: seq<byte>, codec: Codec): (t: CallTrace)
    ensures forall i | 0 <= i < |t.steps| :: !t.steps[i].Wrote?
  {
    match ParseFrame(incoming)
    case Failure(e) =>
      var read := if |incoming| < HeaderLength then [] else [Received(incoming[..HeaderLength])];
      CallTrace(read, [], Failure(Transport(e)))
    case Success((body, rest)) =>
      var read := [Received(incoming[..HeaderLength]), Received(body)];
      match codec.unpack(body)
      case None => CallTrace(read, rest, Failure(UnpackFailed))
      case Some(v) =>
        var closed := read + [Closed];
        if !v.Map? then CallTrace(closed, rest, Failure(NotAMapping))
        else match ResponseFromDict(v.entries)
          case Failure(errors) => CallTrace(closed, rest, Failure(Invalid(errors)))
          case Success(response) => CallTrace(closed, rest, Success(response))
  }

  /** The specification of `call_method` for a request and the bytes the peer sends back
      before closing its end of the connection. */
  function CallOutcome(request: CallRequest, incoming: seq<byte>, codec: Codec): (t: CallTrace)
    ensures t.steps == [] <==>
      PackedRequest(request, codec).None? || |PackedRequest(request, codec).value| >= 0x1_0000_0000
    ensures t.result.Success? ==> |t.steps| == 5 && t.steps[4] == Closed
  {
    match PackedRequest(request, codec)
    case None => CallTrace([], incoming, Failure(PackFailed))
    case Some(packed) =>
      match EncodeFrame(packed)
      case Failure(e) => CallTrace([], incoming, Failure(Transport(e)))
      case Success(frame) =>
        var reply := AfterRequest(incoming, codec);
        CallTrace([Wrote(frame[..HeaderLength]), Wrote(packed)] + reply.steps, reply.rest, reply.result)
  }

  /** Steps that write nothing add nothing to the writer. */
  lemma {:induction false} SentWithoutWrites(steps: seq<Step>)
    requires forall i | 0 <= i < |steps| :: !steps[i].Wrote?
    ensures Sent(steps) == []
  {
    if steps != [] {
      SentWithoutWrites(steps[1..]);
    }
  }

  /** Two writes followed by anything but writes send exactly the two pieces. */
  lemma {:induction false} SentTwoWrites(a: seq<byte>, b: seq<byte>, tail: seq<Step>)
    requires forall i | 0 <= i < |tail| :: !tail[i].Wrote?
    ensures Sent([Wrote(a), Wrote(b)] + tail) == a + b
  {
    var steps := [Wrote(a), Wrote(b)] + tail;
    var second := [Wrote(b)] + tail;
    assert steps[1..] == second;
    assert second[1..] == tail;
    SentWithoutWrites(tail);
    assert second != [] && second[0] == Wrote(b);
    assert Sent(second) == b + Sent(tail);
    assert steps != [] && steps[0] == Wrote(a);
    assert Sent(steps) == a + Sent(second);
  }

  /** Each call writes exactly one frame, header first, and it carries the packed request;
      a request the serializer rejects, or one too large for a 4-byte header, writes
      nothing and fails. */
  lemma CallWritesOneFrame(request: CallRequest, incoming: seq<byte>, codec: Codec)
    ensures PackedRequest(request, codec).None? ==>
              CallOutcome(request, incoming, codec) == CallTrace([], incoming, Failure(PackFailed))
    ensures PackedRequest(request, codec).Some? ==>
            var packed := PackedRequest(request, codec).value;
            var t := CallOutcome(request, incoming, codec);
            if |packed| < 0x1_0000_0000 then
              && 2 <= |t.steps|
              && t.steps[0] == Wrote(EncodeFrame(packed).value[..HeaderLength])
              && t.steps[1] == Wrote(packed)
              && (forall i | 2 <= i < |t.steps| :: !t.steps[i].Wrote?)
              && Sent(t.steps) == EncodeFrame(packed).value
              && ParseFrame(Sent(t.steps)) == Success((packed, []))
            else
              t == CallTrace([], incoming, Failure(Transport(HeaderOverflow(|packed|))))
  {
    if PackedRequest(request, codec).Some? && |PackedRequest(request, codec).value| < 0x1_0000_0000 {
      var packed := PackedRequest(request, codec).value;
      var frame := EncodeFrame(packed).value;
      var reply := AfterRequest(incoming, codec);
      SentTwoWrites(frame[..HeaderLength], packed, reply.steps);
      assert frame == frame[..HeaderLength] + packed;
      FrameRoundTrip(packed, []);
      assert frame + [] == frame;
    }
  }


  /** Whenever a call gets as far as unpacking a reply, it has read exactly one reply frame,
      header first, and has left every byte after that frame unread. */
  lemma CallReadsOneFrame(request: CallRequest, incoming: seq<byte>, codec: Codec)
    ensures var t := CallOutcome(request, incoming, codec);
            t.result.Success? || t.result.error.UnpackFailed? || t.result.error.NotAMapping?
              || t.result.error.Invalid? ==>
              && 4 <= |t.steps| && t.steps[2].Received? && t.steps[3].Received?
              && (forall i | 0 <= i < |t.steps| && i != 2 && i != 3 :: !t.steps[i].Received?)
              && incoming == t.steps[2].data + t.steps[3].data + t.rest
              && ParseFrame(incoming) == Success((t.steps[3].data, t.rest))
  {
  }

  /** The steps of every call come in the order of `call_method`: all writes, then all
      reads, then at most the close, and no more than five of them. */
  lemma CallStepOrder(request: CallRequest, incoming: seq<byte>, codec: Codec)
    ensures var t := CallOutcome(request, incoming, codec);
            && |t.steps| <= 5
            && forall i, j | 0 <= i < j < |t.steps| :: Phase(t.steps[i]) <= Phase(t.steps[j])
  {
  }

  /** The writer is closed exactly when the reply frame was read and decoded: a call that
      fails earlier leaves the connection open. */
  lemma CallClosesAfterReply(request: CallRequest, incoming: seq<byte>, codec: Codec)
    ensures var t := CallOutcome(request, incoming, codec);
            Closed in t.steps <==>
              t.result.Success? || t.result.error.NotAMapping? || t.result.error.Invalid?
  {
  }

  /** A reply framed as the server frames it, whose body decodes to a valid response mapping,
      makes the call return that response after the full write/read/close sequence. */
  lemma CallReturnsReply(request: CallRequest, reply: seq<byte>, rest: seq<byte>, codec: Codec, d: Dict)
    requires PackedRequest(request, codec).Some? && |PackedRequest(request, codec).value| < 0x1_0000_0000
    requires |reply| < 0x1_0000_0000
    requires codec.unpack(reply) == Some(Map(d))
    requires ResponseFromDict(d).Success?
    ensures var packed := PackedRequest(request, codec).value;
            var replyFrame := EncodeFrame(reply).value;
            CallOutcome(request, replyFrame + rest, codec) == CallTrace(
              [ Wrote(EncodeFrame(packed).value[..HeaderLength]), Wrote(packed),
                Received(replyFrame[..HeaderLength]), Received(reply), Closed ],
              rest, Success(ResponseFromDict(d).value))
  {
    FrameRoundTrip(reply, rest);
    var replyFrame := EncodeFrame(reply).value;
    assert (replyFrame + rest)[..HeaderLength] == replyFrame[..HeaderLength];
  }

  /** A reply cut short anywhere fails the call with a short read, consumes the whole
      stream and never closes the writer. */
  lemma CallShortReply(request: CallRequest, reply: seq<byte>, k: nat, codec: Codec)
    requires PackedRequest(request, codec).Some? && |PackedRequest(request, codec).value| < 0x1_0000_0000
    requires |reply| < 0x1_0000_0000
    requires k < HeaderLength + |reply|
    ensures var t := CallOutcome(request, EncodeFrame(reply).value[..k], codec);
            && t.result.Failure? && t.result.error.Transport? && t.result.error.cause.IncompleteRead?
            && t.rest == [] && Closed !in t.steps
  {
    TruncatedFrameFails(reply, k);
  }

  /** The client. It keeps only the socket path, and each call gets its own connection.
      The path is kept as the string given, without the normalisation `Path` applies. The
      model never reads it, because opening the connection is not modelled. */
  class Client {
    const socketPath: string

    constructor (socketPath: string := DefaultSocketPath)
      ensures this.socketPath == socketPath
    {
      this.socketPath := socketPath;
    }

    /** `_write_msgpack`: pack the message, write the 4-byte big-endian length, then the body.
        When packing fails, or the length does not fit in 4 bytes, nothing is written. */
    method WriteMsgpack(writer: Writer, message: Dict, codec: Codec) returns (r: Result<(), CallError>)
      modifies writer, writer.log
      ensures writer.closed == old(writer.closed)
      ensures codec.pack(Map(message)).None? ==>
                && r == Failure(PackFailed)
                && writer.sent == old(writer.sent)
                && writer.log.trace == old(writer.log.trace)
      ensures codec.pack(Map(message)).Some? ==>
              var packed := codec.pack(Map(message)).value;
              match EncodeFrame(packed)
              case Failure(e) =>
                && r == Failure(Transport(e))
                && writer.sent == old(writer.sent)
                && writer.log.trace == old(writer.log.trace)
              case Success(frame) =>
                && r == Success(())
                && writer.sent == old(writer.sent) + frame
                && writer.log.trace == old(writer.log.trace) + [Wrote(frame[..HeaderLength]), Wrote(packed)]
    {
      var packing := codec.pack(Map(message));
      if packing.None? {
        return Failure(PackFailed);
      }
      var packed := packing.value;
      var size := |packed|;
      var header := ToBytesBigEndian(size, HeaderLength);
      if header.None? {
        return Failure(Transport(HeaderOverflow(size)));
      }
      writer.Write(header.value);
      writer.Write(packed);
      r := Success(());
      assert (header.value + packed)[..HeaderLength] == header.value;
    }

    /** The two exact reads of `_read_msgpack`: 4 bytes, decoded as a big-endian size, then
        exactly that many bytes. */
    method ReadFrame(reader: Reader) returns (r: Result<seq<byte>, FrameError>)
      modifies reader, reader.log
      ensures var stream := old(reader.unread);
              match ParseFrame(stream)
              case Failure(e) =>
                && r == Failure(e)
                && reader.unread == []
                && reader.log.trace == old(reader.log.trace)
                     + (if |stream| < HeaderLength then [] else [Received(stream[..HeaderLength])])
              case Success((body, rest)) =>
                && r == Success(body)
                && reader.unread == rest
                && reader.log.trace == old(reader.log.trace)
                     + [Received(stream[..HeaderLength]), Received(body)]
    {
      var sizeData := reader.ReadExactly(HeaderLength);
      if sizeData.Failure? {
        return Failure(sizeData.error);
      }
      var size := FromBytesBigEndian(sizeData.value);
      var data := reader.ReadExactly(size);
      if data.Failure? {
        return Failure(data.error);
      }
      r := Success(data.value);
    }

    /** `_read_msgpack`: read one frame and unpack its body. */
    method ReadMsgpack(reader: Reader, codec: Codec) returns (r: Result<Value, CallError>)
      modifies reader, reader.log
      ensures var stream := old(reader.unread);
              match ParseFrame(stream)
              case Failure(e) =>
                && r == Failure(Transport(e))
                && reader.unread == []
                && reader.log.trace == old(reader.log.trace)
                     + (if |stream| < HeaderLength then [] else [Received(stream[..HeaderLength])])
              case Success((body, rest)) =>
                && reader.unread == rest
                && reader.log.trace == old(reader.log.trace)
                     + [Received(stream[..HeaderLength]), Received(body)]
                && r == (match codec.unpack(body)
                         case None => Failure(UnpackFailed)
                         case Some(v) => Success(v))
    {
      var data := ReadFrame(reader);
      if data.Failure? {
        return Failure(Transport(data.error));
      }
      match codec.unpack(data.value)
      case None => r := Failure(UnpackFailed);
      case Some(v) => r := Success(v);
    }

    /** `call_method`: build the request, write it as one frame, read one frame back, close
        the writer and build the response. The connection is the reader/writer pair, whose
        halves share one log. */
    method CallMethod(methodName: string, params: Dict, unifiedMsgOrigin: string,
                      reader: Reader, writer: Writer, codec: Codec)
      returns (r: Result<CallResponse, CallError>)
      requires reader.log == writer.log
      modifies reader, writer, writer.log
      ensures var t := CallOutcome(CallRequest(methodName, params, unifiedMsgOrigin), old(reader.unread), codec);
              && r == t.result
              && writer.log.trace == old(writer.log.trace) + t.steps
              && reader.unread == t.rest
              && writer.sent == old(writer.sent) + Sent(t.steps)
              && writer.closed == (old(writer.closed) || Closed in t.steps)
    {
      KeywordsMakeRequest(methodName, params, unifiedMsgOrigin);
      var request := RequestFromDict(RequestKeywords(methodName, params, unifiedMsgOrigin)).value;
      CallWritesOneFrame(request, reader.unread, codec);

      var written := WriteMsgpack(writer, RequestToDict(request), codec);
      if written.Failure? {
        return Failure(written.error);
      }
      var responseData := ReadMsgpack(reader, codec);
      if responseData.Failure? {
        return Failure(responseData.error);
      }
      writer.Close();
      if !responseData.value.Map? {
        r := Failure(NotAMapping);
        return;
      }
      match ResponseFromDict(responseData.value.entries)
      case Failure(errors) => r := Failure(Invalid(errors));
      case Success(response) => r := Success(response);
    }
  }
}
