/** One authenticated SSH session to one host: connecting, running a command on
    a fresh channel while its output goes to the controller's standard output,
    and disconnecting. The transport's answers (whether the key loads, whether the
    handshake and the authentication succeed, what a channel carries) are inputs
    to the model. */
module SshSession {
  import opened Wire

  datatype SshConfig = SshConfig(hostname: string, username: string, port: u16, privateKeyPath: string)

  /** Transport settings: inactivity timeout and keepalive interval, in seconds. */
  datatype ClientConfig = ClientConfig(inactivityTimeout: nat, keepaliveInterval: nat)

  const Settings: ClientConfig := ClientConfig(120, 30)

  datatype DisconnectReason = ByApplication

  /** A disconnect message: reason code, description and language tag. */
  datatype Disconnect = Disconnect(reason: DisconnectReason, description: string, language: string)

  /** What the transport answers while connecting: whether the private key loads,
      whether TCP connect and the SSH handshake succeed, and the result of
      public-key authentication (`None` if that exchange itself failed). */
  datatype ConnectReplies = ConnectReplies(keyLoaded: bool, handshakeDone: bool, auth: Option<bool>)

  /** The host-key hook: every server key is accepted. */
  function CheckServerKey(serverKey: seq<byte>): (accept: bool)
    ensures accept
  {
    true
  }

  // ---------------------------------------------------------------------------
  // What a channel's message stream yields to `exec_command`

  /** The concatenation of the Data chunks of `msgs`, in order. */
  function Stdout(msgs: seq<Msg>): (out: seq<byte>)
    ensures (forall k :: 0 <= k < |msgs| ==> !msgs[k].Data?) ==> out == []
    ensures |msgs| == 1 && msgs[0].Data? ==> out == msgs[0].data
    decreases |msgs|
  {
    if msgs == [] then []
    else
      var last := msgs[|msgs| - 1];
      assert forall k :: 0 <= k < |msgs| - 1 ==> msgs[..|msgs| - 1][k] == msgs[k];
      Stdout(msgs[..|msgs| - 1]) + (if last.Data? then last.data else [])
  }

  /** `msgs[k]` is an exit status and none follows it. */
  ghost predicate IsLastExit(msgs: seq<Msg>, k: int)
  {
    0 <= k < |msgs| && msgs[k].ExitStatus? &&
    forall t :: k < t < |msgs| ==> !msgs[t].ExitStatus?
  }

  /** The status carried by the last ExitStatus message, if there is one. */
  function LastExitStatus(msgs: seq<Msg>): (r: Option<u32>)
    ensures r.None? <==> forall k :: 0 <= k < |msgs| ==> !msgs[k].ExitStatus?
    decreases |msgs|
  {
    if msgs == [] then None
    else
      var n := |msgs| - 1;
      if msgs[n].ExitStatus? then Some(msgs[n].status)
      else
        assert forall k :: 0 <= k < n ==> msgs[..n][k] == msgs[k];
        LastExitStatus(msgs[..n])
  }

  /** The status of the ExitStatus message that no other ExitStatus message
      follows is the one recorded. */
  lemma {:induction false} LastExitStatusOfLast(msgs: seq<Msg>, k: int)
    requires IsLastExit(msgs, k)
    ensures LastExitStatus(msgs) == Some(msgs[k].status)
    decreases |msgs|
  {
    var n := |msgs| - 1;
    if k < n {
      assert !msgs[n].ExitStatus?;
      assert forall t :: 0 <= t < n ==> msgs[..n][t] == msgs[t];
      LastExitStatusOfLast(msgs[..n], k);
    }
  }

  /** A recorded status always comes from such a last ExitStatus message. */
  lemma {:induction false} LastExitStatusHasSource(msgs: seq<Msg>)
    requires LastExitStatus(msgs).Some?
    ensures exists k :: IsLastExit(msgs, k) && LastExitStatus(msgs) == Some(msgs[k].status)
    decreases |msgs|
  {
    var n := |msgs| - 1;
    if msgs[n].ExitStatus? {
      assert IsLastExit(msgs, n);
    } else {
      assert forall t :: 0 <= t < n ==> msgs[..n][t] == msgs[t];
      LastExitStatusHasSource(msgs[..n]);
      var k :| IsLastExit(msgs[..n], k) && LastExitStatus(msgs[..n]) == Some(msgs[..n][k].status);
      assert IsLastExit(msgs, k);
    }
  }

  /** What `exec_command` returns once the stream has ended: the last exit
      status, or a panic if there was none. */
  function Completion(msgs: seq<Msg>): (r: Outcome<u32>)
    ensures r.Ok? || r == Panic(NoCleanExit)
    ensures r.Ok? <==> exists k :: 0 <= k < |msgs| && msgs[k].ExitStatus?
    ensures r.Ok? ==> exists k :: IsLastExit(msgs, k) && msgs[k].status == r.value
  {
    match LastExitStatus(msgs)
    case Some(c) =>
      LastExitStatusHasSource(msgs);
      Ok(c)
    case None => Panic(NoCleanExit)
  }

  /** Output is produced chunk by chunk: the output of two consecutive stretches
      of a stream is the output of the first followed by that of the second. */
  lemma {:induction false} StdoutAppend(a: seq<Msg>, b: seq<Msg>)
    ensures Stdout(a + b) == Stdout(a) + Stdout(b)
    decreases |b|
  {
    if b != [] {
      var n := |b| - 1;
      assert (a + b)[..|a + b| - 1] == a + b[..n];
      StdoutAppend(a, b[..n]);
    } else {
      assert a + b == a;
    }
  }

  /** Each Data chunk reaches standard output unmodified, after the output of
      every earlier message and before that of every later one. */
  lemma ChunkInPlace(msgs: seq<Msg>, k: nat)
    requires k < |msgs| && msgs[k].Data?
    ensures Stdout(msgs) == Stdout(msgs[..k]) + msgs[k].data + Stdout(msgs[k + 1..])
  {
    assert msgs == msgs[..k] + [msgs[k]] + msgs[k + 1..];
    StdoutAppend(msgs[..k] + [msgs[k]], msgs[k + 1..]);
    StdoutAppend(msgs[..k], [msgs[k]]);
    assert [msgs[k]][..0] == [];
  }

  /** The last exit status of two consecutive stretches is that of the second,
      unless the second has none. */
  lemma {:induction false} LastExitStatusAppend(a: seq<Msg>, b: seq<Msg>)
    ensures LastExitStatus(a + b) == if LastExitStatus(b).Some? then LastExitStatus(b) else LastExitStatus(a)
    decreases |b|
  {
    if b != [] {
      var n := |b| - 1;
      assert (a + b)[..|a + b| - 1] == a + b[..n];
      LastExitStatusAppend(a, b[..n]);
    } else {
      assert a + b == a;
    }
  }

  /** One more message: its Data chunk is appended to the output and its exit
      status, if it carries one, becomes the recorded one. */
  lemma OneMore(msgs: seq<Msg>, m: Msg)
    ensures Stdout(msgs + [m]) == Stdout(msgs) + (if m.Data? then m.data else [])
    ensures LastExitStatus(msgs + [m]) == if m.ExitStatus? then Some(m.status) else LastExitStatus(msgs)
  {
    assert (msgs + [m])[..|msgs|] == msgs;
  }

  /** A message other than ExitStatus never changes the recorded exit status. */
  lemma StatusIgnoresOthers(a: seq<Msg>, m: Msg, b: seq<Msg>)
    requires !m.ExitStatus?
    ensures LastExitStatus(a + [m] + b) == LastExitStatus(a + b)
  {
    LastExitStatusAppend(a, [m]);
    assert LastExitStatus([m]).None? by { assert [m][0] == m; }
    LastExitStatusAppend(a + [m], b);
    LastExitStatusAppend(a, b);
  }

  /** A message other than Data never adds output. */
  lemma OutputIgnoresOthers(a: seq<Msg>, m: Msg, b: seq<Msg>)
    requires !m.Data?
    ensures Stdout(a + [m] + b) == Stdout(a + b)
  {
    StdoutAppend(a, [m]);
    assert Stdout([m]) == [] by { assert [m][..0] == []; }
    StdoutAppend(a + [m], b);
    StdoutAppend(a, b);
  }

  /** Concrete run of a command whose remote end prints a line and exits with
      status 3 after an earlier status 0: both lines reach standard output and
      the last status is returned. */
  lemma ExecExample()
    ensures Completion([Data([0x68, 0x69]), ExitStatus(0), Other, Data([0x0A]), ExitStatus(3)]) == Ok(3)
    ensures Stdout([Data([0x68, 0x69]), ExitStatus(0), Other, Data([0x0A]), ExitStatus(3)]) == [0x68, 0x69, 0x0A]
  {
    var msgs := [Data([0x68, 0x69]), ExitStatus(0), Other, Data([0x0A]), ExitStatus(3)];
    LastExitStatusOfLast(msgs, 4);
    assert Stdout(msgs[..1]) == [0x68, 0x69] by { assert msgs[..1][..0] == []; }
    assert Stdout(msgs[..2]) == [0x68, 0x69] by { assert msgs[..2][..1] == msgs[..1]; }
    assert Stdout(msgs[..3]) == [0x68, 0x69] by { assert msgs[..3][..2] == msgs[..2]; }
    assert Stdout(msgs[..4]) == [0x68, 0x69, 0x0A] by { assert msgs[..4][..3] == msgs[..3]; }
    assert msgs[..5][..4] == msgs[..4];
    assert msgs[..5] == msgs;
  }

  // ---------------------------------------------------------------------------

  /** A connected session. `config` is the host and user the transport handle
      is connected to; `stdout` is everything `exec_command` has written to the
      controller's standard output; `sent` the disconnect messages the transport
      accepted for sending. */
  class Session {
    const config: SshConfig
    const client: ClientConfig
    var stdout: seq<byte>
    var sent: seq<Disconnect>

    constructor Established(config: SshConfig)
      ensures this.config == config && client == Settings
      ensures stdout == [] && sent == []
    {
      this.config := config;
      client := Settings;
      stdout := [];
      sent := [];
    }

    /** Loads the key, connects with the fixed transport settings and
        authenticates; an authentication answer of `false` is an error. The
        host-key hook of the handshake is `CheckServerKey`, which never rejects,
        so a failed handshake (`handshakeDone` false) never comes from the
        server's key. */
    static method Connect(config: SshConfig, replies: ConnectReplies) returns (r: Outcome<Session>)
      ensures r.Ok? <==> replies.keyLoaded && replies.handshakeDone && replies.auth == Some(true)
      ensures !replies.keyLoaded ==> r == Err(KeyLoadFailed)
      ensures replies.keyLoaded && !replies.handshakeDone ==> r == Err(TransportFailed)
      ensures replies.keyLoaded && replies.handshakeDone && replies.auth == None ==> r == Err(AuthProtocolError)
      ensures replies.keyLoaded && replies.handshakeDone && replies.auth == Some(false) ==> r == Err(AuthRejected)
      ensures r.Ok? ==> fresh(r.value) && r.value.config == config && r.value.client == Settings
      ensures r.Ok? ==> r.value.stdout == [] && r.value.sent == []
    {
      if !replies.keyLoaded {
        return Err(KeyLoadFailed);
      }
      if !replies.handshakeDone {
        return Err(TransportFailed);
      }
      match replies.auth {
        case None =>
          return Err(AuthProtocolError);
        case Some(accepted) =>
          if !accepted {
            return Err(AuthRejected);
          }
      }
      var session := new Session.Established(config);
      return Ok(session);
    }

    /** Runs `command` on the channel the transport opened (`null` if opening
        failed), copies every Data chunk to standard output, and returns the
        last exit status once the stream ends. */
    method ExecCommand(command: string, ch: Channel?) returns (r: Outcome<u32>)
      requires ch != null ==> ch.Valid() && ch.Unused()
      modifies this`stdout, ch
      ensures ch == null ==> r == Err(ChannelOpenFailed) && stdout == old(stdout)
      ensures ch != null ==> ch.request == Some(command)
      ensures ch != null && !ch.acceptsExec ==> r == Err(ExecNotSent) && stdout == old(stdout) && ch.pos == 0
      ensures ch != null && ch.acceptsExec ==>
        r == Completion(ch.stream) && stdout == old(stdout) + Stdout(ch.stream) && ch.pos == |ch.stream|
    {
      if ch == null {
        return Err(ChannelOpenFailed);
      }
      var accepted := ch.Exec(command);
      if !accepted {
        return Err(ExecNotSent);
      }
      var code: Option<u32> := None;
      while true
        invariant ch.Valid() && ch.request == Some(command)
        invariant code == LastExitStatus(ch.stream[..ch.pos])
        invariant stdout == old(stdout) + Stdout(ch.stream[..ch.pos])
        decreases |ch.stream| - ch.pos
      {
        ghost var before := ch.stream[..ch.pos];
        var m := ch.Wait();
        if m.None? {
          break;
        }
        assert ch.stream[..ch.pos] == before + [m.value];
        OneMore(before, m.value);
        match m.value {
          case Data(d) =>
            stdout := stdout + d;
          case ExitStatus(c) =>
            code := Some(c);
          case Other =>
        }
      }
      assert ch.stream[..ch.pos] == ch.stream;
      match code {
        case Some(c) => r := Ok(c);
        case None => r := Panic(NoCleanExit);
      }
    }

    /** Sends a disconnect by the application with an empty description and the
        language tag "English"; `delivered` is the transport's answer. A
        disconnect the transport could not take is not sent, and is an error. */
    method Close(delivered: bool) returns (r: Outcome<()>)
      modifies this`sent
      ensures delivered ==> sent == old(sent) + [Disconnect(ByApplication, "", "English")]
      ensures !delivered ==> sent == old(sent)
      ensures r == if delivered then Ok(()) else Err(DisconnectFailed)
    {
      if delivered {
        sent := sent + [Disconnect(ByApplication, "", "English")];
        r := Ok(());
      } else {
        r := Err(DisconnectFailed);
      }
    }
  }
}
