/** The runtime manager: launches a detached remote command and reads its PID
    from the command's output, kills a process by PID, and shuts the session
    down. */
module SshRuntime {
  import opened Wire
  import opened Text
  import opened PidPattern
  import opened SshSession

  /** The command actually run: the caller's command in a new session, so that
      it survives the launching channel. */
  function DetachedCommand(command: string): (c: string)
  {
    "setsid " + command
  }

  function KillCommand(pid: string): (c: string)
  {
    "kill " + pid
  }

  /** Each wrapper keeps the caller's text intact after a fixed prefix, so the
      command (or PID) is recovered from what is sent, and different ones are
      never confused. */
  lemma CommandsKeepArgument(a: string, b: string)
    ensures DetachedCommand(a)[..7] == "setsid " && DetachedCommand(a)[7..] == a
    ensures KillCommand(a)[..5] == "kill " && KillCommand(a)[5..] == a
    ensures DetachedCommand(a) == DetachedCommand(b) ==> a == b
    ensures KillCommand(a) == KillCommand(b) ==> a == b
  {
    assert DetachedCommand(a)[7..] == a;
    assert DetachedCommand(b)[7..] == b;
    assert KillCommand(a)[5..] == a;
    assert KillCommand(b)[5..] == b;
  }

  // ---------------------------------------------------------------------------
  // The scanning rule of `start_new_process`

  /** What one Data chunk decides: a panic because it is not UTF-8, a PID, or
      nothing (scanning goes on). */
  datatype ChunkVerdict = Garbled | Found(pid: string) | Nothing

  /** A chunk is lower-cased, checked to be UTF-8 and matched against the
      announcement pattern, on its own. */
  function ScanChunk(d: seq<byte>): (v: ChunkVerdict)
    ensures v.Garbled? <==> !ValidUtf8(d)
    ensures v.Nothing? <==> ValidUtf8(d) && FindPid(Lower(d)).None?
    ensures v.Found? ==> FindPid(Lower(d)) == Some(Ascii(v.pid))
  {
    var low := Lower(d);
    LowerKeepsUtf8(d);
    if !ValidUtf8(low) then Garbled
    else
      match FindPid(low)
      case Some(p) =>
        AsciiOfText(p);
        Found(AsText(p))
      case None => Nothing
  }

  /** A PID read from a chunk is a non-empty string of decimal digits. */
  lemma FoundPidIsDecimal(d: seq<byte>)
    requires ScanChunk(d).Found?
    ensures |ScanChunk(d).pid| >= 1
    ensures forall t :: 0 <= t < |ScanChunk(d).pid| ==> '0' <= ScanChunk(d).pid[t] <= '9'
  {
    var pid := ScanChunk(d).pid;
    var raw := Ascii(pid);
    PidIsDigitsAfterMarker(Lower(d), raw);
    assert forall t :: 0 <= t < |pid| ==> raw[t] as int == pid[t] as int % 0x100;
    assert forall t :: 0 <= t < |pid| ==> pid[t] as int < 0x100;
  }

  /** A message on which scanning stops. */
  predicate Decisive(m: Msg)
  {
    m.Data? && !ScanChunk(m.data).Nothing?
  }

  /** The outcome a decisive message gives. */
  function Verdict(m: Msg): (r: Outcome<string>)
    requires Decisive(m)
  {
    match ScanChunk(m.data)
    case Garbled => Panic(NotUtf8)
    case Found(p) => Ok(p)
  }

  /** The result once the stream has ended without a match. */
  function Finish(pidOpt: Option<string>): (r: Outcome<string>)
  {
    match pidOpt
    case Some(p) => Ok(p)
    case None => Panic(NoCleanExit)
  }

  /** What `start_new_process` returns for the rest of a stream `msgs`, with
      `pidOpt` what it has recorded so far (`Some("")` once a status 0 was seen). */
  function Announced(msgs: seq<Msg>, pidOpt: Option<string>): (r: Outcome<string>)
    ensures r.Ok? || r == Panic(NotUtf8) || r == Panic(NoCleanExit)
    ensures pidOpt.Some? && r.Panic? ==> r == Panic(NotUtf8)
    decreases |msgs|
  {
    if msgs == [] then Finish(pidOpt)
    else if Decisive(msgs[0]) then Verdict(msgs[0])
    else if msgs[0] == ExitStatus(0) then Announced(msgs[1..], Some(""))
    else Announced(msgs[1..], pidOpt)
  }

  /** How many messages `start_new_process` takes from the channel. */
  function Received(msgs: seq<Msg>): (n: nat)
    ensures n <= |msgs|
    ensures msgs != [] ==> 1 <= n
    ensures n < |msgs| ==> Decisive(msgs[n - 1])
    decreases |msgs|
  {
    if msgs == [] then 0
    else if Decisive(msgs[0]) then 1
    else 1 + Received(msgs[1..])
  }

  /** `msgs[k]` is the first decisive message. */
  ghost predicate FirstDecisive(msgs: seq<Msg>, k: int)
  {
    0 <= k < |msgs| && Decisive(msgs[k]) && forall t :: 0 <= t < k ==> !Decisive(msgs[t])
  }

  /** The first chunk that fails to decode or matches decides the result, and
      the messages after it are never received. */
  lemma {:induction false} FirstDecisiveWins(msgs: seq<Msg>, k: int, pidOpt: Option<string>)
    requires FirstDecisive(msgs, k)
    ensures Announced(msgs, pidOpt) == Verdict(msgs[k])
    ensures Received(msgs) == k + 1
    decreases k
  {
    if k > 0 {
      assert FirstDecisive(msgs[1..], k - 1) by {
        assert forall t :: 0 <= t < k - 1 ==> msgs[1..][t] == msgs[t + 1];
      }
      FirstDecisiveWins(msgs[1..], k - 1, if msgs[0] == ExitStatus(0) then Some("") else pidOpt);
    }
  }

  /** Whatever follows the first decisive message, the result and the number of
      messages received stay the same. */
  lemma LaterMessagesUnread(msgs: seq<Msg>, k: int, rest: seq<Msg>, pidOpt: Option<string>)
    requires FirstDecisive(msgs, k)
    ensures Announced(msgs[..k + 1] + rest, pidOpt) == Announced(msgs, pidOpt)
    ensures Received(msgs[..k + 1] + rest) == Received(msgs)
  {
    var longer := msgs[..k + 1] + rest;
    assert forall t :: 0 <= t <= k ==> longer[t] == msgs[t];
    FirstDecisiveWins(msgs, k, pidOpt);
    FirstDecisiveWins(longer, k, pidOpt);
  }

  /** A PID that is not the empty fallback comes from the first decisive chunk,
      which matched. */
  lemma {:induction false} PidFromFirstMatch(msgs: seq<Msg>, pidOpt: Option<string>, pid: string)
    requires pidOpt == None || pidOpt == Some("")
    requires Announced(msgs, pidOpt) == Ok(pid) && pid != ""
    ensures exists k :: FirstDecisive(msgs, k) && ScanChunk(msgs[k].data) == Found(pid)
    decreases |msgs|
  {
    if msgs == [] {
    } else if !Decisive(msgs[0]) {
      var next := if msgs[0] == ExitStatus(0) then Some("") else pidOpt;
      PidFromFirstMatch(msgs[1..], next, pid);
      var k :| FirstDecisive(msgs[1..], k) && ScanChunk(msgs[1..][k].data) == Found(pid);
      FirstDecisiveShift(msgs, k);
    } else {
      FoundVerdict(msgs[0], pid);
      assert FirstDecisive(msgs, 0);
    }
  }

  /** A decisive message whose verdict is a PID is a chunk that announced it. */
  lemma FoundVerdict(m: Msg, pid: string)
    requires Decisive(m) && Verdict(m) == Ok(pid)
    ensures m.Data? && ScanChunk(m.data) == Found(pid)
  {
  }

  /** The first decisive message keeps its place behind a message that is not. */
  lemma FirstDecisiveShift(msgs: seq<Msg>, k: int)
    requires msgs != [] && !Decisive(msgs[0]) && FirstDecisive(msgs[1..], k)
    ensures FirstDecisive(msgs, k + 1) && msgs[k + 1] == msgs[1..][k]
  {
    assert forall t :: 1 <= t <= k ==> msgs[t] == msgs[1..][t - 1];
  }

  /** Some message of `msgs` is an exit status 0. */
  ghost predicate ExitedCleanly(msgs: seq<Msg>)
  {
    exists k :: 0 <= k < |msgs| && msgs[k] == ExitStatus(0)
  }

  /** Without a decisive chunk the whole stream is received, and the result is
      the empty PID if some exit status was 0 (or one was recorded before), a
      panic otherwise; non-zero statuses play no part. */
  lemma {:induction false} NoAnnouncementFallback(msgs: seq<Msg>, pidOpt: Option<string>)
    requires forall t :: 0 <= t < |msgs| ==> !Decisive(msgs[t])
    ensures Announced(msgs, pidOpt) == if ExitedCleanly(msgs) then Ok("") else Finish(pidOpt)
    ensures Received(msgs) == |msgs|
    decreases |msgs|
  {
    if msgs != [] {
      var next := if msgs[0] == ExitStatus(0) then Some("") else pidOpt;
      assert forall t :: 0 <= t < |msgs| - 1 ==> msgs[1..][t] == msgs[t + 1];
      NoAnnouncementFallback(msgs[1..], next);
      if ExitedCleanly(msgs[1..]) {
        var k :| 0 <= k < |msgs[1..]| && msgs[1..][k] == ExitStatus(0);
        assert msgs[k + 1] == ExitStatus(0);
      }
      if ExitedCleanly(msgs) && msgs[0] != ExitStatus(0) {
        var k :| 0 <= k < |msgs| && msgs[k] == ExitStatus(0);
        assert msgs[1..][k - 1] == ExitStatus(0);
      }
    }
  }

  /** Inserting a non-zero exit status anywhere changes nothing. */
  lemma {:induction false} NonZeroStatusIgnored(a: seq<Msg>, status: u32, b: seq<Msg>, pidOpt: Option<string>)
    requires status != 0
    ensures Announced(a + [ExitStatus(status)] + b, pidOpt) == Announced(a + b, pidOpt)
    decreases |a|
  {
    if a == [] {
      assert a + [ExitStatus(status)] + b == [ExitStatus(status)] + b;
      assert ([ExitStatus(status)] + b)[1..] == b;
      assert a + b == b;
    } else {
      assert (a + [ExitStatus(status)] + b)[1..] == a[1..] + [ExitStatus(status)] + b;
      assert (a + b)[1..] == a[1..] + b;
      NonZeroStatusIgnored(a[1..], status, b, if a[0] == ExitStatus(0) then Some("") else pidOpt);
    }
  }

  /** Two streams that differ at most in the letter case of their Data chunks. */
  ghost predicate SameUpToCaseStreams(m1: seq<Msg>, m2: seq<Msg>)
  {
    |m1| == |m2| &&
    forall t :: 0 <= t < |m1| ==>
      m1[t] == m2[t] || (m1[t].Data? && m2[t].Data? && SameUpToCase(m1[t].data, m2[t].data))
  }

  /** Scanning is case-insensitive: changing the case of letters in the output
      changes neither the result nor how much of the stream is read. */
  lemma {:induction false} CaseInsensitive(m1: seq<Msg>, m2: seq<Msg>, pidOpt: Option<string>)
    requires SameUpToCaseStreams(m1, m2)
    ensures Announced(m1, pidOpt) == Announced(m2, pidOpt)
    ensures Received(m1) == Received(m2)
    decreases |m1|
  {
    if m1 != [] {
      if m1[0] != m2[0] {
        LowerFoldsCase(m1[0].data, m2[0].data);
        LowerKeepsUtf8(m1[0].data);
        LowerKeepsUtf8(m2[0].data);
        assert ScanChunk(m1[0].data) == ScanChunk(m2[0].data);
      }
      assert SameUpToCaseStreams(m1[1..], m2[1..]) by {
        assert forall t :: 0 <= t < |m1| - 1 ==> m1[1..][t] == m1[t + 1] && m2[1..][t] == m2[t + 1];
      }
      CaseInsensitive(m1[1..], m2[1..], if m1[0] == ExitStatus(0) then Some("") else pidOpt);
    }
  }

  // ---------------------------------------------------------------------------

  /** Owns the session to the host. */
  class RuntimeManager {
    const config: SshConfig
    const session: Session

    constructor (config: SshConfig, session: Session)
      ensures this.config == config && this.session == session
    {
      this.config := config;
      this.session := session;
    }

    /** Runs the detached command on the channel the transport opened (`null`
        if opening failed) and scans its output for the PID announcement. */
    method StartNewProcess(command: string, ch: Channel?) returns (r: Outcome<string>)
      requires ch != null ==> ch.Valid() && ch.Unused()
      modifies ch
      ensures ch == null ==> r == Panic(ChannelNotOpened)
      ensures ch != null ==> ch.request == Some(DetachedCommand(command))
      ensures ch != null && !ch.acceptsExec ==> r == Err(ExecNotSent) && ch.pos == 0
      ensures ch != null && ch.acceptsExec ==> r == Announced(ch.stream, None) && ch.pos == Received(ch.stream)
    {
      if ch == null {
        return Panic(ChannelNotOpened);
      }
      var accepted := ch.Exec(DetachedCommand(command));
      if !accepted {
        return Err(ExecNotSent);
      }
      var pidOpt: Option<string> := None;
      while true
        invariant ch.Valid() && ch.request == Some(DetachedCommand(command))
        invariant Announced(ch.stream, None) == Announced(ch.stream[ch.pos..], pidOpt)
        invariant Received(ch.stream) == ch.pos + Received(ch.stream[ch.pos..])
        decreases |ch.stream| - ch.pos
      {
        ghost var rest := ch.stream[ch.pos..];
        var m := ch.Wait();
        if m.None? {
          break;
        }
        assert rest[0] == m.value && rest[1..] == ch.stream[ch.pos..];
        match m.value {
          case Data(d) =>
            var low := Lower(d);
            if !ValidUtf8(low) {
              return Panic(NotUtf8);
            }
            var found := FindPid(low);
            if found.Some? {
              return Ok(AsText(found.value));
            }
          case ExitStatus(status) =>
            if status == 0 {
              pidOpt := Some("");
            }
          case Other =>
        }
      }
      r := Finish(pidOpt);
    }

    /** Kills `pid` on the channel the transport opened; errors are swallowed,
        but a stream without an exit status still panics inside `exec_command`. */
    method KillProcess(pid: string, ch: Channel?) returns (r: Outcome<()>)
      requires ch != null ==> ch.Valid() && ch.Unused()
      modifies session`stdout, ch
      ensures ch != null ==> ch.request == Some(KillCommand(pid))
      ensures r == if ch != null && ch.acceptsExec && Completion(ch.stream).Panic? then Panic(NoCleanExit) else Ok(())
      ensures session.stdout == old(session.stdout) + (if ch != null && ch.acceptsExec then Stdout(ch.stream) else [])
    {
      var res := session.ExecCommand(KillCommand(pid), ch);
      match res {
        case Ok(_) => r := Ok(());
        case Err(_) => r := Ok(());
        case Panic(reason) => r := Panic(reason);
      }
    }

    /** Disconnects the session. */
    method Shutdown(delivered: bool) returns (r: Outcome<()>)
      modifies session`sent
      ensures delivered ==> session.sent == old(session.sent) + [Disconnect(ByApplication, "", "English")]
      ensures !delivered ==> session.sent == old(session.sent)
      ensures r == if delivered then Ok(()) else Err(DisconnectFailed)
    {
      r := session.Close(delivered);
    }
  }
}
