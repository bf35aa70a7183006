/** The length-prefixed framing of the RPC client: a 4-byte unsigned big-endian
    length header followed by exactly that many body bytes. */
module Framing {
  import opened Wrappers
  import opened ByteOrder

  /** Bytes in the length header. */
  const HeaderLength: nat := 4

  /** The failures of framing, as the client meets them. */
  datatype FrameError =
    | HeaderOverflow(size: nat)                          // OverflowError from size.to_bytes(4, "big")
    | IncompleteRead(partial: seq<byte>, expected: nat)  // readexactly hit end of stream

  /** What `_write_msgpack` puts on the writer for an already packed body:
      the header, then the body. */
  function EncodeFrame(body: seq<byte>): (r: Result<seq<byte>, FrameError>)
    ensures r.Success? <==> |body| < 0x1_0000_0000
    ensures r.Failure? ==> r.error == HeaderOverflow(|body|)
    ensures r.Success? ==>
      && |r.value| == HeaderLength + |body|
      && FromBytesBigEndian(r.value[..HeaderLength]) == |body|
      && r.value[HeaderLength..] == body
  {
    assert Pow256(HeaderLength) == 0x1_0000_0000;
    match ToBytesBigEndian(|body|, HeaderLength)
    case None => Failure(HeaderOverflow(|body|))
    case Some(header) => Success(header + body)
  }

  /** What the two `readexactly` calls of `_read_msgpack` take from a stream that ends
      after `stream`: the body and the bytes left unread, or the short read that stopped it. */
  function ParseFrame(stream: seq<byte>): (r: Result<(seq<byte>, seq<byte>), FrameError>)
    ensures r.Success? <==>
      HeaderLength <= |stream| && HeaderLength + FromBytesBigEndian(stream[..HeaderLength]) <= |stream|
    ensures r.Success? ==>
      && |r.value.0| == FromBytesBigEndian(stream[..HeaderLength])
      && stream == stream[..HeaderLength] + r.value.0 + r.value.1
    ensures |stream| < HeaderLength ==> r == Failure(IncompleteRead(stream, HeaderLength))
    ensures HeaderLength <= |stream| && r.Failure? ==>
      r == Failure(IncompleteRead(stream[HeaderLength..], FromBytesBigEndian(stream[..HeaderLength])))
  {
    if |stream| < HeaderLength then Failure(IncompleteRead(stream, HeaderLength))
    else
      var size := FromBytesBigEndian(stream[..HeaderLength]);
      var tail := stream[HeaderLength..];
      if |tail| < size then Failure(IncompleteRead(tail, size))
      else
        assert stream == stream[..HeaderLength] + tail[..size] + tail[size..];
        Success((tail[..size], tail[size..]))
  }

  /** Round trip: reading a stream that starts with a written frame gives back exactly the
      body, consumes exactly 4 + |body| bytes and leaves the rest of the stream untouched. */
  lemma FrameRoundTrip(body: seq<byte>, rest: seq<byte>)
    requires |body| < 0x1_0000_0000
    ensures EncodeFrame(body).Success?
    ensures ParseFrame(EncodeFrame(body).value + rest) == Success((body, rest))
  {
    var frame := EncodeFrame(body).value;
    var stream := frame + rest;
    assert stream[..HeaderLength] == frame[..HeaderLength];
    assert stream[HeaderLength..] == body + rest;
  }

  /** The converse: whatever frame a stream starts with is the frame the writer produces for
      its body, so every body the reader accepts is one the writer could have framed. */
  lemma ParsedFrameIsEncoded(stream: seq<byte>)
    requires ParseFrame(stream).Success?
    ensures |ParseFrame(stream).value.0| < 0x1_0000_0000
    ensures EncodeFrame(ParseFrame(stream).value.0)
         == Success(stream[..HeaderLength + |ParseFrame(stream).value.0|])
  {
    var body := ParseFrame(stream).value.0;
    var header := stream[..HeaderLength];
    assert Pow256(HeaderLength) == 0x1_0000_0000;
    var frame := EncodeFrame(body).value;
    FromBytesInjective(frame[..HeaderLength], header);
    assert frame == frame[..HeaderLength] + frame[HeaderLength..];
    assert stream[..HeaderLength + |body|] == header + body;
  }

  /** A short read never yields partial data: every proper prefix of a frame fails to parse. */
  lemma TruncatedFrameFails(body: seq<byte>, k: nat)
    requires |body| < 0x1_0000_0000
    requires k < HeaderLength + |body|
    ensures ParseFrame(EncodeFrame(body).value[..k]).Failure?
  {
    var frame := EncodeFrame(body).value;
    if HeaderLength <= k {
      assert frame[..k][..HeaderLength] == frame[..HeaderLength];
    }
  }
}
