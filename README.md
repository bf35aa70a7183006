# One-shot RPC client: framing and envelopes

This project models the client side of a small RPC transport. A caller names a method,
passes a parameter dict and an origin tag, and gets back a response envelope. The
service runs behind a local Unix domain socket (`/run/logic/logic.sock` by default).
`Client.call_method` does one call per connection, in this order:

1. It builds a `CallRequest` from its three arguments. `method` and `unified_msg_origin`
   are required strings; `params` is a dict that defaults to empty.
2. It serializes `request.dict()`. It writes a 4-byte unsigned big-endian length header
   and then the body, as two successive writes.
3. It reads exactly 4 bytes, decodes them as a big-endian size, and then reads exactly
   that many bytes. It unpacks those bytes.
4. It closes the writer and builds a `CallResponse` from the decoded dict. `success` (a
   bool) and `error_message` (a string) are required; `data` is a dict that defaults to
   empty.

The model has these modules:

- `ByteOrder` (byte_order.dfy): `int.to_bytes(n, "big")` and `int.from_bytes(s, "big")`.
  It includes the overflow `to_bytes` raises and proofs that the two are inverse bijections.
- `Framing` (framing.dfy): the frame writer and the frame reader as pure functions over
  byte sequences. It proves round trip, exact consumption and failure on a short read.
- `Streams` (streams.dfy): in-memory stand-ins for the asyncio writer and reader. The
  writer is a class holding a growing `sent` buffer and a `closed` flag. The reader is a
  class holding the `unread` bytes the peer sent before closing its end. Both halves of a
  connection share a `Log`. Each write, each successful exact read and the close appends
  its `Step` to the log's ghost `trace`, so the log records the order of operations.
- `Envelope` (envelope.dfy): structured values, the two envelopes, and the field rules
  that build them from a key→value mapping. A failure lists every offending field.
- `RpcClient` (rpc_client.dfy): the `Client` class with `_write_msgpack`, `_read_msgpack`
  and `call_method` as methods over those buffers. `CallOutcome` is their specification.
  The lemmas about it say that a call writes exactly one frame and then reads exactly one
  frame, in that order, and closes only after the reply was read.

The serializer (msgpack `packb`/`unpackb`) is a `Codec` value whose two functions are
parameters. Either may fail. `packb` fails, before anything is written, on a value it
cannot encode: an integer outside its 64-bit range, a string, byte string, array or map
longer than 2^32 - 1, or nesting past its recursion limit. Which values fail is left to the
codec.

Exceptions become `Result` values. `PackFailed` is an error raised by `packb`.
`HeaderOverflow` is the `OverflowError` of `to_bytes`. `IncompleteRead` is the short read
of `readexactly`. `UnpackFailed` is a decode error. `NotAMapping` is the `TypeError` of
`CallResponse(**data)` on a non-dict. `Invalid` is the model's validation error.

Each call uses a fresh connection and makes a single attempt. Requests carry no call
identifier, and nothing is retried. A `data` field present as null is a validation error
(`WrongType("data")`), because the field is declared as a dict.

## Model

| member | source | states |
|---|---|---|
| `ByteOrder.FromBytesBigEndian` | rpc_client.py:34 | the big-endian value of n bytes is below 256^n |
| `ByteOrder.ToBytesBigEndian` | rpc_client.py:41 | `to_bytes` succeeds exactly when the value fits in the given number of bytes (otherwise OverflowError); on success it returns that many bytes, and they decode back to the value |
| `ByteOrder.DigitsDecode` | rpc_client.py:34-41 | decoding the big-endian digits of any n below 256^length gives n |
| `ByteOrder.DecodedDigits` | rpc_client.py:34-41 | re-encoding the value of any byte string, at its own length, gives the same bytes |
| `ByteOrder.ToBytesOfFromBytes` | rpc_client.py:34-41 | `to_bytes(from_bytes(s), len(s))` never overflows and returns s, so header encode and decode are inverse bijections |
| `ByteOrder.FromBytesInjective` | rpc_client.py:34 | two headers of the same width that decode to the same size are the same bytes |
| `Framing.EncodeFrame` | rpc_client.py:38-42 | a body can be framed exactly when it is shorter than 2^32 bytes (else HeaderOverflow with its length); the frame is 4 + len bytes, its first 4 bytes decode to the body length, and the body follows the header unchanged |
| `Framing.ParseFrame` | rpc_client.py:32-35 | reading succeeds exactly when 4 header bytes and then `size` body bytes are available; on success the stream is header ++ body ++ rest with len(body) == size; with fewer than 4 bytes it fails with a short read of 4 carrying the whole stream; with a short body it fails with a short read of `size` carrying what followed the header |
| `Framing.FrameRoundTrip` | rpc_client.py:32-42 | for any body shorter than 2^32 bytes, reading a stream that starts with its frame returns exactly that body and leaves exactly the bytes after the frame |
| `Framing.ParsedFrameIsEncoded` | rpc_client.py:32-42 | every body the reader accepts is shorter than 2^32 bytes, and the bytes it consumed are exactly the frame the writer produces for that body |
| `Framing.TruncatedFrameFails` | rpc_client.py:33-35 | every proper prefix of a frame fails to read: a short read never yields partial data |
| `Streams.Writer.Write` | rpc_client.py:41-42 | a write appends its bytes to what was sent, leaves the closed flag alone and appends one Wrote step with those bytes to the connection's log |
| `Streams.Writer.Close` | rpc_client.py:55 | closing sets the closed flag, sends nothing and appends a Closed step to the log |
| `Streams.Reader.ReadExactly` | rpc_client.py:33-35 | an exact read returns the next n bytes, consumes exactly them and logs one Received step with them; if fewer remain it fails with a short read carrying them, drains the stream and logs nothing |
| `Envelope.CheckField` | rpc_client.py:8-25 | a field yields no error exactly when it is present if required and of its declared kind if present; otherwise it yields one error, Missing or WrongType, as the case is |
| `Envelope.RequestFromDict` | rpc_client.py:8-15 | a mapping makes a CallRequest exactly when `method` and `unified_msg_origin` are present strings and `params`, if present, is a dict; the request carries those values, with params empty when absent; otherwise every offending field is reported as missing or of the wrong type, each error once, and no other field is named |
| `Envelope.ResponseFromDict` | rpc_client.py:18-25 | a mapping makes a CallResponse exactly when `success` is a present bool, `error_message` a present string and `data`, if present, a dict; the response carries those values, with data empty when absent; otherwise every offending field is reported, each error once, and no other field is named |
| `Envelope.RequestKeywords` | rpc_client.py:49-51 | the keyword arguments carry exactly the keys `method`, `params` and `unified_msg_origin` |
| `Envelope.RequestToDict` | rpc_client.py:52 | the serialized request mapping has exactly the keys `method`, `params` and `unified_msg_origin` |
| `Envelope.KeywordsMakeRequest` | rpc_client.py:49-51 | the request `call_method` builds from its three arguments always validates and carries exactly those arguments |
| `Envelope.RequestDictRoundTrip` | rpc_client.py:8-15 | validating the serialized mapping of any request rebuilds that request |
| `Envelope.ResponseIgnoresUnknownKeys` | rpc_client.py:18-25 | adding or changing a key that is not a response field does not change the outcome of building the response |
| `Envelope.ResponseDataDefaultsToEmpty` | rpc_client.py:20-22 | every response mapping without `data` that builds a response gives that response the empty mapping as its data |
| `RpcClient.CallOutcome` | rpc_client.py:45-58 | a call performs no step exactly when packing its request fails or the packed request is too long for the 4-byte header; a call that succeeds performs five steps and ends by closing |
| `RpcClient.AfterRequest` | rpc_client.py:54-58 | after the request is written, the call performs no further write |
| `RpcClient.CallWritesOneFrame` | rpc_client.py:39-52 | a request the serializer rejects writes nothing and fails with PackFailed; a call whose packed request is shorter than 2^32 bytes starts with exactly two writes, first the 4-byte header and then the packed request, and writes nothing else; what it sends reads back as exactly one frame holding the packed request; a longer packed request writes nothing and fails with HeaderOverflow |
| `RpcClient.CallReadsOneFrame` | rpc_client.py:32-58 | a call that gets as far as unpacking a reply made exactly two reads, header then body, right after its writes; those reads and the unread rest make up the whole incoming stream; the incoming stream parses as one frame with that body and rest |
| `RpcClient.CallStepOrder` | rpc_client.py:48-58 | every call performs at most five steps, and every write comes before every read, which comes before the close |
| `RpcClient.CallClosesAfterReply` | rpc_client.py:52-58 | the writer is closed exactly when the reply frame was read and unpacked; a call that fails earlier leaves the connection open |
| `RpcClient.CallReturnsReply` | rpc_client.py:45-58 | given a well-framed reply whose body decodes to a valid response mapping, the call writes the request frame, reads the reply frame, closes, returns that response and leaves what follows the reply unread |
| `RpcClient.CallShortReply` | rpc_client.py:33-56 | a reply cut short anywhere fails the call with a short read, consumes the whole stream and never closes the writer |
| `RpcClient.Client.constructor` | rpc_client.py:29-30 | the client keeps the socket path string it is given, `/run/logic/logic.sock` by default |
| `RpcClient.Client.WriteMsgpack` | rpc_client.py:38-43 | if packing fails, it fails with PackFailed and neither the writer nor the log changes; otherwise the writer gains exactly the frame of the packed message, and the log gains a header write followed by a body write; if the body is 2^32 bytes or longer, it fails with HeaderOverflow and neither the writer nor the log changes |
| `RpcClient.Client.ReadFrame` | rpc_client.py:33-35 | the two exact reads take exactly one frame off the reader and return its body, logging the header read and then the body read; a short read returns the ParseFrame error, drains the reader and logs only a header read that completed |
| `RpcClient.Client.ReadMsgpack` | rpc_client.py:32-36 | the reader loses exactly one frame, the log gains the header read and then the body read, and the result is the unpacked body (or UnpackFailed); a short read fails with the ParseFrame error, drains the reader and logs only a header read that completed |
| `RpcClient.Client.CallMethod` | rpc_client.py:45-58 | for a reader and writer that share one log, the log gains exactly the steps of CallOutcome, in order, for the request built from the arguments; the result, the unread rest and the closed flag are CallOutcome's; the writer gains exactly the bytes of those write steps |

## Left out

- Opening the connection (`asyncio.open_unix_connection` on the socket path) is I/O. The model starts from the reader/writer pair that call returns, so a failed connect is not modelled.
- `writer.drain()` and `writer.wait_closed()` are I/O with no effect on the bytes. Concurrency between coroutines is also not modelled; each call runs start to finish.
- The reader holds the whole of what the peer sends before it closes. A peer that keeps the connection open without sending would block the source forever; the model does not capture this.
- msgpack encoding and decoding (`packb(use_bin_type=True)`, `unpackb(raw=False)`) belong to a foreign library. They are the two functions of a `Codec`. Every unpacking error, extra trailing data included, is one `UnpackFailed`.
- Dictionary key order is not modelled. `packb` writes a dict's entries in insertion order, but a `Map` is unordered, so the packed bytes of a request depend only on its contents.
- Structured values cover nil, bool, int, str, bin, array and string-keyed maps. Floats and extension types are not modelled. Map keys other than strings are not modelled either. By default `unpackb` rejects keys other than str and bytes while the reply is read, before the writer is closed. A top-level bytes key would reach `CallResponse(**data)` and raise a TypeError there.
- `Envelope.RequestFromDict`: does not model pydantic's type coercion (for example a number accepted for a string or bool field). A value of the wrong kind is always a `WrongType` error, so this contract is weaker than the library's behaviour for coercible inputs.
- `Envelope.ResponseFromDict`: does not model pydantic's type coercion, for the same reason as `RequestFromDict`.
- Correlation IDs, multiplexing, persistent connections, reset-on-failure and retry do not appear in the client code, so they are not modelled.
- api.py is not part of this model. Its wrappers call a `call(..., module_id=..., resp_model=...)` method and import `BaseParameters`, `BaseResponse` and `get_rpc_client`, none of which exist in rpc_client.py.
- main.py is plugin glue that issues one `call_method` and logs the result; it is not part of this model.
