# ssh-runtime: the runtime manager's scanning and exit-code logic in Dafny

ssh-runtime drives a remote host over one authenticated SSH session. Its
runtime manager does three things:

- It launches a command detached from the channel (`setsid <command>`). It then
  reads the command's output until a line `server is on host <name> on pid
  <digits>` appears, and returns the PID.
- It kills a process by running `kill <pid>`. Any error from that command is
  ignored.
- It shuts the session down with an application disconnect.

Underneath, the session connects with a private key, accepts every server host
key and runs one-off commands (`exec_command`). While `exec_command` runs, the
remote output is copied to local standard output, and it returns the last exit
status the remote reports.

The model treats an SSH session channel as a finite sequence of messages:
`Data` chunks, `ExitStatus` codes, and `Other` for every kind the code ignores.
The end of the stream is the end of the sequence. The transport's answers are
inputs:

- whether the key loads;
- whether the handshake succeeds;
- the authentication answer;
- whether a channel opens, which is a `null` channel when it does not;
- whether the exec request can be sent.

The result of an operation is `Ok`, `Err` (the error a Rust `?` or `bail!`
returns) or `Panic` (an `unwrap`/`expect` that aborts). The two must be told
apart because `kill_process` swallows errors but cannot swallow a panic.

Modules:

- `Wire` (wire.dfy) holds messages, outcomes and the `Channel` class. The
  channel has its fixed `stream`, the exec request it received, and the number
  of messages taken so far.
- `Text` (text.dfy) covers ASCII lower-casing of a byte chunk, and the UTF-8
  well-formedness rule that `String::from_utf8` enforces. That rule is table
  3-7 of the Unicode Standard.
- `PidPattern` (pid_pattern.dfy) specifies the pattern
  `server is on host (.*) on pid (\d+)` on bytes.
  - `FindAnnouncement` searches for the leftmost match; for that start it takes
    the greedy `.*`, which means the last ` on pid <digit>` on the same line.
  - `FindPid` returns capture group 2.
  - Matching on bytes is matching on characters here. Every literal of the
    pattern is ASCII, and ASCII bytes never occur inside a multi-byte UTF-8
    sequence.
- `SshSession` (ssh_session.dfy) holds `connect`, the host-key hook and
  `exec_command`, a `while` loop over the channel, and `close`.
  - The `Session` class holds the bytes written to standard output and the
    disconnect messages the transport accepted.
  - `exec_command` is proved against the functions `Stdout` (all Data chunks
    in order) and `LastExitStatus`.
- `SshRuntime` (ssh_runtime.dfy) holds the `RuntimeManager` class.
  - `start_new_process` is a `while` loop with an early return. It is proved
    against the function `Announced`, which states the scanning rule message
    by message.
  - `Received` counts how many messages the loop takes.
  - The lemmas prove the following about the scanning rule:
    - the first decisive chunk wins;
    - later messages are never read;
    - letter case does not matter;
    - non-zero statuses are ignored;
    - without a match the result falls back to exit status 0.
- `Scenarios` (scenarios.dfy) works the rule through concrete output.
  - `Server is on host worker-1 on pid 4242\n` yields `4242`.
  - An upper-case announcement is found.
  - An announcement split over two chunks is missed.
  - `hello\n` followed by exit status 0 yields the empty PID.

The model follows what the code does, including where it differs from the
behaviour one might expect of a launcher:

- Output without an announcement followed by exit status 0 is not reported as
  a missing PID. The code (src/ssh_runtime.rs:50-54, 59) keeps scanning after
  the status and, once the stream ends, returns `Ok("")`.
  `Announced`, `NoAnnouncementFallback` and `CleanExitWithoutAnnouncement` state
  that.
- Two endings panic instead of returning an error. One is a stream that ends
  without an exit status in `exec_command`. The other is a stream that ends with
  neither an announcement nor an exit status 0 in `start_new_process`. Both
  panic through `expect("program did not exit cleanly")` (src/ssh_session.rs:89
  and src/ssh_runtime.rs:59). The model makes them `Panic(NoCleanExit)`.
  Consequently `kill_process` returns a panic, not `Ok`, when the `kill`
  command's stream carries no exit status.
- A channel that fails to open is not a returned error everywhere. In
  `start_new_process` it is a panic, because `open_channel` uses `expect`
  (src/ssh_session.rs:62-65). The model makes it `Panic(ChannelNotOpened)`.
  In `exec_command` (`?` at src/ssh_session.rs:68) it stays `Err(ChannelOpenFailed)`.
- Non-UTF-8 output is a panic (`unwrap`, src/ssh_runtime.rs:41):
  `Panic(NotUtf8)`.

## Model

| member | source | states |
|---|---|---|
| SshRuntime.RuntimeManager.StartNewProcess | src/ssh_runtime.rs:26-60 | sends exactly `setsid <command>`; a channel that does not open panics; an exec request that cannot be sent is an error; otherwise the result is `Announced` of the whole stream and exactly `Received` messages are taken from the channel |
| SshRuntime.CommandsKeepArgument | src/ssh_runtime.rs:29 | the detached command is `setsid ` followed by the caller's command unchanged, and the kill command is `kill ` followed by the PID unchanged; both wrappers are injective |
| SshRuntime.ScanChunk | src/ssh_runtime.rs:41-48 | a chunk is garbled iff it is not UTF-8, yields nothing iff it is UTF-8 and its lower-cased form does not match, and otherwise yields the text of group 2 of the match in the lower-cased chunk |
| SshRuntime.FoundPidIsDecimal | src/ssh_runtime.rs:42-46 | a PID read from a chunk is a non-empty string of the characters `0`-`9` |
| SshRuntime.FirstDecisiveWins | src/ssh_runtime.rs:34-47 | the first chunk that fails to decode or matches decides the result, whatever was seen before it, and the loop has then taken exactly the messages up to it |
| SshRuntime.LaterMessagesUnread | src/ssh_runtime.rs:43-47 | whatever follows the first decisive chunk changes neither the result nor the number of messages taken |
| SshRuntime.PidFromFirstMatch | src/ssh_runtime.rs:39-47 | a non-empty PID result comes from the first decisive chunk, which matched and yielded that PID |
| SshRuntime.NoAnnouncementFallback | src/ssh_runtime.rs:50-59 | with no decisive chunk the whole stream is taken, and the result is `Ok("")` if some exit status was 0 (or one was recorded earlier), a panic otherwise |
| SshRuntime.NonZeroStatusIgnored | src/ssh_runtime.rs:50-54 | inserting an exit status other than 0 anywhere in the stream does not change the result |
| SshRuntime.CaseInsensitive | src/ssh_runtime.rs:41-43 | two streams whose chunks differ only in letter case give the same result and are read to the same point |
| SshRuntime.RuntimeManager.KillProcess | src/ssh_runtime.rs:62-74 | runs `kill <pid>` through `exec_command`; `Ok(())` whether that command succeeded or failed, except that a stream without an exit status panics; the command's output is appended to standard output |
| SshRuntime.RuntimeManager.Shutdown | src/ssh_runtime.rs:80-83 | closes the session: when the transport takes it, one application disconnect with an empty description and language tag `English` is sent and the result is `Ok`; otherwise nothing is sent and the error is returned |
| SshRuntime.Announced | src/ssh_runtime.rs:34-59 | the outcome of the scanning loop is a PID, the UTF-8 panic or the no-clean-exit panic, never a returned error; once a status 0 has been recorded the only possible panic is the UTF-8 one |
| SshRuntime.Received | src/ssh_runtime.rs:34-47 | the loop takes at least one message of a non-empty stream and never more than the stream holds; when it stops early, the last message taken is the decisive chunk |
| PidPattern.FindAnnouncement | src/ssh_runtime.rs:42-43 | the match found is the leftmost one and, for that start, the one with the last pid literal; none is found only when the pattern occurs nowhere from the starting point |
| PidPattern.FindPid | src/ssh_runtime.rs:42-44 | group 2 is present iff the pattern occurs in the chunk, and it is group 2 of a leftmost-first, greedy match |
| PidPattern.FindPidOfFirst | src/ssh_runtime.rs:43-44 | the PID found is group 2 of the unique leftmost-first match |
| PidPattern.PidIsDigitsAfterMarker | src/ssh_runtime.rs:42-46 | the PID found is a non-empty, maximal run of ASCII digits that stands right after ` on pid ` in the chunk |
| PidPattern.LineFeedEndsGroup | src/ssh_runtime.rs:42 | group 1 (`.*`) can extend exactly up to the first line feed after the host literal |
| PidPattern.LastPidAt | src/ssh_runtime.rs:42 | the greedy `.*`: the last position in a range where ` on pid ` and a digit occur, or none in that range |
| PidPattern.DigitRunEnd | src/ssh_runtime.rs:42 | the greedy `\d+`: digits up to the returned position and a non-digit (or the end) there |
| Text.LowerByte | src/ssh_runtime.rs:41 | ASCII lower-casing changes exactly the upper-case letters, each to its lower-case letter, and leaves no upper-case letter |
| Text.LowerFoldsCase | src/ssh_runtime.rs:41 | chunks that differ only in letter case lower-case to the same bytes, and lower-casing is idempotent |
| Text.LowerKeepsUtf8 | src/ssh_runtime.rs:41 | a lower-cased chunk is UTF-8 iff the original is, so the `unwrap` fails exactly on chunks that were not UTF-8 |
| Text.AsciiIsUtf8 | src/ssh_runtime.rs:41 | a chunk of ASCII bytes is UTF-8 |
| Text.AsciiOfText | src/ssh_runtime.rs:46 | turning the captured bytes into a string and back gives the same bytes |
| SshSession.Session.ExecCommand | src/ssh_session.rs:67-90 | sends the command unchanged; a channel that does not open and an exec request that cannot be sent are errors; otherwise the whole stream is read, standard output is extended by `Stdout` of the stream, and the result is `Completion` of the stream |
| SshSession.Completion | src/ssh_session.rs:89 | `Ok` exactly when some exit status was received, carrying the status of the last one, and a panic otherwise |
| SshSession.LastExitStatus | src/ssh_session.rs:71-89 | no status is recorded iff the stream carries no exit status |
| SshSession.LastExitStatusOfLast | src/ssh_session.rs:83-85 | the status recorded is that of the exit status no other exit status follows |
| SshSession.LastExitStatusHasSource | src/ssh_session.rs:83-85 | a recorded status comes from such a last exit status |
| SshSession.LastExitStatusAppend | src/ssh_session.rs:83-85 | the status after two stretches of stream is that of the second, unless the second carries none |
| SshSession.StdoutAppend | src/ssh_session.rs:79-82 | the output of two consecutive stretches is the output of the first followed by the output of the second |
| SshSession.ChunkInPlace | src/ssh_session.rs:79-82 | every Data chunk reaches standard output unmodified, after the output of all earlier messages and before that of all later ones |
| SshSession.OneMore | src/ssh_session.rs:78-86 | one more message appends its Data chunk to the output, and its exit status, if it carries one, becomes the recorded one |
| SshSession.StatusIgnoresOthers | src/ssh_session.rs:79-86 | a message that is not an exit status never changes the recorded status |
| SshSession.OutputIgnoresOthers | src/ssh_session.rs:83-86 | a message that is not Data never adds output |
| SshSession.ExecExample | src/ssh_session.rs:74-89 | two Data chunks around an exit status 0 and a later exit status 3 give both chunks as output and 3 as the result |
| SshSession.Session.Connect | src/ssh_session.rs:38-60 | succeeds iff the key loads, the handshake succeeds and authentication answers `true`; each failure gives its own error, an answer of `false` gives `AuthRejected`; a new session has the given configuration and the 120 s inactivity timeout and 30 s keepalive interval |
| SshSession.CheckServerKey | src/ssh_session.rs:25-30 | every server key is accepted |
| SshSession.Session.Close | src/ssh_session.rs:92-97 | when the transport takes it, exactly one `Disconnect(ByApplication, "", "English")` is added to what was sent and the result is `Ok`; otherwise nothing is sent and the result is `Err(DisconnectFailed)` |
| SshSession.Stdout | src/ssh_session.rs:79-82 | a stream without Data chunks writes nothing, and a stream of one Data chunk writes exactly that chunk (how longer streams compose is `StdoutAppend` and `ChunkInPlace`) |
| Text.Lower | src/ssh_runtime.rs:41 | `to_ascii_lowercase` keeps the length and maps each byte by `LowerByte`, whose contract changes exactly the upper-case letters, each to its lower-case letter |
| Text.LowerEffect | src/ssh_runtime.rs:41 | a lower-cased chunk holds no upper-case letter, and every byte outside ASCII is left as it was |
| Text.Utf8Boundaries | src/ssh_runtime.rs:41 | on `ValidUtf8`, what `String::from_utf8` accepts: a non-empty valid chunk starts neither with a continuation byte nor with a byte that never occurs in UTF-8 (0xC0, 0xC1, 0xF5-0xFF), and ends with an ASCII or continuation byte |
| Text.Utf8Width | src/ssh_runtime.rs:41 | the length of the well-formed UTF-8 sequence that starts a chunk (table 3-7 of the Unicode Standard): at most 4 and within the chunk, 1 for an ASCII byte, and for longer sequences a lead byte of at least 0xC2 followed by continuation bytes |
| Wire.Channel.Exec | src/ssh_runtime.rs:29 | the exec request records exactly the command given, and the call succeeds exactly when the request can be sent |
| Wire.Channel.Wait | src/ssh_runtime.rs:35 | `wait` returns the next message of the stream and advances by one, or returns `None` at the end of the stream without moving |
| Scenarios.WorkerAnnouncementFound | src/ssh_runtime.rs:39-47 | one chunk `Server is on host worker-1 on pid 4242\n` yields `4242` |
| Scenarios.UpperCaseAnnouncementFound | src/ssh_runtime.rs:41-46 | one chunk `SERVER IS ON HOST H ON PID 7\n` yields `7` |
| Scenarios.WholeAnnouncementFound | src/ssh_runtime.rs:39-47 | the announcement `server is on host h on pid 7\n` in one chunk yields `7` |
| Scenarios.SplitAnnouncementMissed | src/ssh_runtime.rs:39-59 | the same announcement split after the host name into two chunks is not found, and the stream, ending without an exit status, panics |
| Scenarios.CleanExitWithoutAnnouncement | src/ssh_runtime.rs:50-59 | output `hello\n` followed by exit status 0 yields the empty PID |
| Scenarios.WorkerLineLastPid | src/ssh_runtime.rs:42 | in the lower-cased worker line no pid literal follows the one before `4242`, so group 1 ends there |

## Left out

- The SSH transport: TCP connect, the handshake, keepalive traffic and the
  inactivity timeout, channel opening and the sending of requests belong to the
  `russh` crate. They are inputs to the model (`ConnectReplies`, a possibly
  `null` channel, `acceptsExec`, the `delivered` flag of a disconnect). The
  timeout and keepalive appear only as the two constants of `Settings`.
- Private-key loading (`load_secret_key`) reads a file and parses a key inside
  a library. The model has only its success or failure.
- The remote's answer to an exec request arrives as a channel message that both
  loops ignore. It is part of `Other`.
- Writes to and flushes of the local standard output cannot fail in the model.
  In `exec_command` such a failure would be returned with `?`. The model keeps
  the bytes written in `Session.stdout`.
- Async scheduling (tokio) is left out; each operation runs to completion.
- Logging (`info!`) is left out.
- `SSHRuntimeManager::new` is left out: it is a connect followed by a panic on
  failure, and the model's constructor takes an established session. The
  stored `ssh_config` field is kept but never read, as in the code.
- src/main.rs is not part of this model: it parses the command line, sets up
  logging, sleeps, and wires the calls together.
- PidPattern.FindPid: `\d` is restricted to the ASCII digits `0`-`9`. Rust's
  `\d` is Unicode-aware and also matches other decimal digits (Arabic-Indic,
  full-width, ...). So a chunk whose PID is written in such digits matches in the
  code but not in the model. A PID whose ASCII digits are followed by such a
  digit (`on pid 12٣`) is captured as `12٣` by the code and as `12` by the
  model. A later ` on pid ` followed by such a digit on the same line moves the
  code's greedy group 1 to it, so the code returns a different PID from the
  model's.
- The regular-expression engine and the per-call compilation of the pattern
  (whose `unwrap` cannot fail on this fixed pattern) are replaced by the search
  over bytes in `PidPattern`.
- Text.AsText reads the captured bytes as characters one for one. This is what
  `as_str().to_string()` gives for the ASCII digits that group 2 can capture.
- Nothing prevents calls on a session after `shutdown`, as in the code.
