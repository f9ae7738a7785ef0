/** Values that cross the SSH transport, the outcomes of the core's operations,
    and the session channel as the core sees it: a finite sequence of messages
    that the remote end sends after the exec request. */
module Wire {

  /** An octet carried by a channel. */
  newtype byte = b: int | 0 <= b < 0x100

  /** The SSH protocol's uint32: the type of an exit status. */
  newtype u32 = n: int | 0 <= n < 0x1_0000_0000

  /** A TCP port number. */
  newtype u16 = n: int | 0 <= n < 0x1_0000

  datatype Option<+T> = None | Some(value: T)

  /** A message received on a session channel. `Other` stands for every kind the
      core ignores (window adjustments, EOF, extended data, exit signals, ...).
      The end of the stream is the end of the sequence. */
  datatype Msg = Data(data: seq<byte>) | ExitStatus(status: u32) | Other

  /** Errors the source returns with `?` or `bail!`. */
  datatype Failure =
    | KeyLoadFailed       // the private key could not be loaded
    | TransportFailed     // TCP connect or SSH handshake failed
    | AuthProtocolError   // the public-key authentication exchange itself failed
    | AuthRejected        // the server answered `false` to public-key authentication
    | ChannelOpenFailed   // a session channel could not be opened
    | ExecNotSent         // the exec request could not be sent on the channel
    | DisconnectFailed    // the disconnect message could not be sent

  /** Reasons for which the source panics (`unwrap`, `expect`) instead of
      returning an error. */
  datatype Abort =
    | ChannelNotOpened    // `open_channel` expects the channel to open
    | NotUtf8             // `String::from_utf8(..).unwrap()` on a data chunk
    | NoCleanExit         // "program did not exit cleanly"

  /** The result of an operation: a value, a returned error, or a panic. */
  datatype Outcome<+T> = Ok(value: T) | Err(failure: Failure) | Panic(abort: Abort)

  /** A session channel. What the remote end will send is fixed when the channel
      is opened (`stream`), as is whether the exec request can be sent on it
      (`acceptsExec`); the channel remembers the command it was asked to run and
      how many messages have been received. The remote's answer to the request
      (success or failure) is one of the `Other` messages of the stream. */
  class Channel {
    const stream: seq<Msg>
    const acceptsExec: bool
    var request: Option<string>
    var pos: nat

    ghost predicate Valid()
      reads this
    {
      pos <= |stream|
    }

    /** A channel straight after opening: no exec request yet, nothing received. */
    ghost predicate Unused()
      reads this
    {
      request == None && pos == 0
    }

    constructor (stream: seq<Msg>, acceptsExec: bool)
      ensures Valid() && Unused()
      ensures this.stream == stream && this.acceptsExec == acceptsExec
    {
      this.stream := stream;
      this.acceptsExec := acceptsExec;
      request := None;
      pos := 0;
    }

    /** Sends the exec request for `command`, asking for a reply; `ok` says
        whether the request could be sent. */
    method Exec(command: string) returns (ok: bool)
      modifies this`request
      ensures request == Some(command)
      ensures ok == acceptsExec
    {
      request := Some(command);
      ok := acceptsExec;
    }

    /** Waits for the next message; `None` once the stream has ended. */
    method Wait() returns (m: Option<Msg>)
      requires Valid()
      modifies this`pos
      ensures Valid()
      ensures old(pos) < |stream| ==> m == Some(stream[old(pos)]) && pos == old(pos) + 1
      ensures old(pos) == |stream| ==> m == None && pos == old(pos)
    {
      if pos < |stream| {
        m := Some(stream[pos]);
        pos := pos + 1;
      } else {
        m := None;
      }
    }
  }
}
