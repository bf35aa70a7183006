/** In-memory stand-ins for the asyncio stream pair a Unix-socket connection gives the
    client: a writer that accumulates what is written to it and a reader over the bytes
    the peer sends before it closes its end. */
module Streams {
  import opened Wrappers
  import opened ByteOrder
  import opened Framing

  /** One observable action on the connection. */
  datatype Step =
    | Wrote(data: seq<byte>)     // one writer.write call
    | Received(data: seq<byte>)  // one readexactly call that returned its bytes
    | Closed                     // writer.close

  /** What happened on one connection, in order; the two halves of the connection share it. */
  class Log {
    ghost var trace: seq<Step>

    constructor ()
      ensures trace == []
    {
      trace := [];
    }
  }

  /** The sending half: every `write` appends to `sent` and is recorded in the log. */
  class Writer {
    var sent: seq<byte>
    var closed: bool
    const log: Log

    constructor (log: Log)
      ensures sent == [] && !closed && this.log == log
    {
      sent := [];
      closed := false;
      this.log := log;
    }

    method Write(data: seq<byte>)
      modifies this, log
      ensures sent == old(sent) + data
      ensures closed == old(closed)
      ensures log.trace == old(log.trace) + [Wrote(data)]
    {
      sent := sent + data;
      log.trace := log.trace + [Wrote(data)];
    }

    method Close()
      modifies this, log
      ensures closed
      ensures sent == old(sent)
      ensures log.trace == old(log.trace) + [Closed]
    {
      closed := true;
      log.trace := log.trace + [Closed];
    }
  }

  /** The receiving half: `unread` is everything the peer has sent that the client has not
      consumed yet, after which the peer has closed the connection. */
  class Reader {
    var unread: seq<byte>
    const log: Log

    constructor (incoming: seq<byte>, log: Log)
      ensures unread == incoming && this.log == log
    {
      unread := incoming;
      this.log := log;
    }

    /** `readexactly(n)`: either exactly the next n bytes, recorded in the log, or, when the
        stream ends first, an IncompleteRead carrying what was left; the failed read drains
        the stream and records nothing. */
    method ReadExactly(n: nat) returns (r: Result<seq<byte>, FrameError>)
      modifies this, log
      ensures n <= |old(unread)| ==>
        && r == Success(old(unread)[..n])
        && unread == old(unread)[n..]
        && log.trace == old(log.trace) + [Received(old(unread)[..n])]
      ensures |old(unread)| < n ==>
        && r == Failure(IncompleteRead(old(unread), n))
        && unread == []
        && log.trace == old(log.trace)
    {
      if n <= |unread| {
        r := Success(unread[..n]);
        log.trace := log.trace + [Received(unread[..n])];
        unread := unread[n..];
      } else {
        r := Failure(IncompleteRead(unread, n));
        unread := [];
      }
    }
  }
}
