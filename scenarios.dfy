/** Concrete runs of the PID scanner on the announcements the launched program
    prints: the pattern's behaviour on actual bytes, derived from the general
    definitions. */
module Scenarios {
  import opened Wire
  import opened Text
  import opened PidPattern
  import opened SshRuntime

  // ---------------------------------------------------------------------------
  // "server is on host h on pid 7\n", whole and split after the host name

  /** "server is on host h" */
  function HostHalf(): (s: seq<byte>) { HostMarker() + [0x68] }

  /** " on pid 7\n" */
  function PidHalf(): (s: seq<byte>) { PidMarker() + [0x37, 0x0A] }

  lemma HostHalfAnnouncesNothing()
    ensures ScanChunk(HostHalf()) == Nothing
  {
    var a := HostMarker() + [0x68];
    AsciiIsUtf8(a);
    assert ScanChunk(a) == Nothing;
  }

  lemma PidHalfAnnouncesNothing()
    ensures ScanChunk(PidHalf()) == Nothing
  {
    var b := PidMarker() + [0x37, 0x0A];
    AsciiIsUtf8(b);
    assert ScanChunk(b) == Nothing;
  }

  lemma WholeLineMatches()
    ensures FindPid(HostHalf() + PidHalf()) == Some([0x37])
  {
    var s := HostHalf() + PidHalf();
    assert s[..18] == HostMarker();
    assert s[19..27] == PidMarker();
    assert !PidAt(s, 20) by { assert s[20..28][0] == s[20]; }
    assert FirstAnnouncement(s, 0, 19);
    FindPidOfFirst(s, 0, 19);
    assert s[28] == LineFeed;
    assert DigitRunEnd(s, 27) == 28;
    assert Captured(s, 19) == [0x37];
  }

  lemma WholeLineScans()
    ensures ScanChunk(HostHalf() + PidHalf()) == Found("7")
  {
    var s := HostHalf() + PidHalf();
    assert Lower(s) == s;
    AsciiIsUtf8(s);
    WholeLineMatches();
    assert AsText([0x37]) == "7";
  }

  /** An announcement split across two chunks is missed: the stream then ends
      without an exit status and the call panics. */
  lemma SplitAnnouncementMissed()
    ensures Announced([Data(HostHalf()), Data(PidHalf())], None) == Panic(NoCleanExit)
  {
    HostHalfAnnouncesNothing();
    PidHalfAnnouncesNothing();
    TwoQuietChunks(HostHalf(), PidHalf());
  }

  lemma TwoQuietChunks(a: seq<byte>, b: seq<byte>)
    requires ScanChunk(a) == Nothing && ScanChunk(b) == Nothing
    ensures Announced([Data(a), Data(b)], None) == Panic(NoCleanExit)
  {
    var two := [Data(a), Data(b)];
    NoAnnouncementFallback(two, None);
  }

  /** A stream of one chunk that announces `pid`. */
  lemma OneAnnouncingChunk(d: seq<byte>, pid: string)
    requires ScanChunk(d) == Found(pid)
    ensures Announced([Data(d)], None) == Ok(pid)
  {
    assert FirstDecisive([Data(d)], 0);
    FirstDecisiveWins([Data(d)], 0, None);
  }

  /** The same bytes in one chunk yield the PID. */
  lemma WholeAnnouncementFound()
    ensures Announced([Data(HostHalf() + PidHalf())], None) == Ok("7")
  {
    WholeLineScans();
    OneAnnouncingChunk(HostHalf() + PidHalf(), "7");
  }

  /** Upper-case announcements are found too. */
  lemma UpperCaseAnnouncementFound()
    ensures Announced([Data(Ascii("SERVER IS ON HOST H ON PID 7\n"))], None) == Ok("7")
  {
    UpperCaseLineScans();
    OneAnnouncingChunk(Ascii("SERVER IS ON HOST H ON PID 7\n"), "7");
  }

  lemma UpperCaseLineScans()
    ensures ScanChunk(Ascii("SERVER IS ON HOST H ON PID 7\n")) == Found("7")
  {
    UpperCaseLowers();
    UpperCaseIsUtf8();
    WholeLineMatches();
    assert AsText([0x37]) == "7";
    ScanOfMatch(Ascii("SERVER IS ON HOST H ON PID 7\n"), HostHalf() + PidHalf(), [0x37]);
  }

  lemma UpperCaseLowers()
    ensures Lower(Ascii("SERVER IS ON HOST H ON PID 7\n")) == HostHalf() + PidHalf()
  {
    var d := Ascii("SERVER IS ON HOST H ON PID 7\n");
    var y := Ascii("server is on host h on pid 7\n");
    assert forall t :: 0 <= t < |d| ==> Lower(d)[t] == y[t];
    WholeLineText();
  }

  lemma WholeLineText()
    ensures HostHalf() + PidHalf() == Ascii("server is on host h on pid 7\n")
  {
    var x := HostHalf() + PidHalf();
    var y := Ascii("server is on host h on pid 7\n");
    assert forall t :: 0 <= t < |x| ==> x[t] == y[t];
  }

  lemma UpperCaseIsUtf8()
    ensures ValidUtf8(Ascii("SERVER IS ON HOST H ON PID 7\n"))
  {
    var d := Ascii("SERVER IS ON HOST H ON PID 7\n");
    assert forall t :: 0 <= t < |d| ==> d[t] < 0x80;
    AsciiIsUtf8(d);
  }

  /** A valid chunk whose lower-cased form matches yields the captured digits. */
  lemma ScanOfMatch(d: seq<byte>, low: seq<byte>, raw: seq<byte>)
    requires Lower(d) == low && ValidUtf8(d) && FindPid(low) == Some(raw)
    ensures ScanChunk(d) == Found(AsText(raw))
  {
    LowerKeepsUtf8(d);
  }

  // ---------------------------------------------------------------------------
  // "Server is on host worker-1 on pid 4242\n"

  /** The lower-cased announcement. */
  function WorkerLine(): (s: seq<byte>) { HostMarker() + Ascii("worker-1") + PidMarker() + Ascii("4242\n") }

  lemma WorkerLineAnnounces()
    ensures Announces(WorkerLine(), 0, 26)
  {
    var s := WorkerLine();
    assert s[..18] == HostMarker();
    assert s[26..34] == PidMarker();
    assert s[34] == 0x34;
    assert forall t :: 18 <= t < 26 ==> s[t] == Ascii("worker-1")[t - 18];
  }

  /** No pid literal follows the one at 26, so the greedy group 1 ends there. */
  lemma WorkerLineLastPid()
    ensures forall j: nat :: 26 < j ==> !PidAt(WorkerLine(), j)
  {
    var s := WorkerLine();
    assert |s| == 39;
    assert s[27] == 0x6F && s[28] == 0x6E && s[30] == 0x70;
    assert !PidAt(s, 27) by { assert s[27..35][0] == s[27]; }
    assert !PidAt(s, 28) by { assert s[28..36][0] == s[28]; }
    assert !PidAt(s, 29) by { assert s[29..37][1] == s[30]; }
    assert !PidAt(s, 30) by { assert s[30..38][0] == s[30]; }
  }

  lemma WorkerLineDigits()
    ensures DigitRunEnd(WorkerLine(), 34) == 38
  {
    var s := WorkerLine();
    assert s[34..] == Ascii("4242\n");
    assert s[38] == LineFeed;
    assert IsDigit(s[34]) && IsDigit(s[35]) && IsDigit(s[36]) && IsDigit(s[37]);
  }

  lemma WorkerLineMatches()
    ensures FindPid(WorkerLine()) == Some(Ascii("4242"))
  {
    var s := WorkerLine();
    WorkerLineAnnounces();
    WorkerLineLastPid();
    assert FirstAnnouncement(s, 0, 26);
    FindPidOfFirst(s, 0, 26);
    WorkerLineDigits();
    assert s[34..38] == Ascii("4242");
  }

  /** The announcement as the launched program prints it yields "4242". */
  lemma WorkerAnnouncementFound()
    ensures Announced([Data(Ascii("Server is on host worker-1 on pid 4242\n"))], None) == Ok("4242")
  {
    WorkerLineScans();
    OneAnnouncingChunk(Ascii("Server is on host worker-1 on pid 4242\n"), "4242");
  }

  lemma WorkerLineScans()
    ensures ScanChunk(Ascii("Server is on host worker-1 on pid 4242\n")) == Found("4242")
  {
    WorkerLowers();
    WorkerIsUtf8();
    WorkerLineMatches();
    WorkerPidText();
    ScanOfMatch(Ascii("Server is on host worker-1 on pid 4242\n"), WorkerLine(), Ascii("4242"));
  }

  lemma WorkerLowers()
    ensures Lower(Ascii("Server is on host worker-1 on pid 4242\n")) == WorkerLine()
  {
    var d := Ascii("Server is on host worker-1 on pid 4242\n");
    var y := Ascii("server is on host worker-1 on pid 4242\n");
    assert forall t :: 0 <= t < |d| ==> Lower(d)[t] == y[t];
    WorkerLineText();
  }

  lemma WorkerLineText()
    ensures WorkerLine() == Ascii("server is on host worker-1 on pid 4242\n")
  {
    var x := WorkerLine();
    var y := Ascii("server is on host worker-1 on pid 4242\n");
    assert forall t :: 0 <= t < |x| ==> x[t] == y[t];
  }

  lemma WorkerIsUtf8()
    ensures ValidUtf8(Ascii("Server is on host worker-1 on pid 4242\n"))
  {
    var d := Ascii("Server is on host worker-1 on pid 4242\n");
    assert forall t :: 0 <= t < |d| ==> d[t] < 0x80;
    AsciiIsUtf8(d);
  }

  lemma WorkerPidText()
    ensures AsText(Ascii("4242")) == "4242"
  {
  }

  /** Output without an announcement followed by exit status 0 yields the empty
      PID rather than an error. */
  lemma CleanExitWithoutAnnouncement()
    ensures Announced([Data(Ascii("hello\n")), ExitStatus(0)], None) == Ok("")
  {
    var msgs := [Data(Ascii("hello\n")), ExitStatus(0)];
    AsciiIsUtf8(Ascii("hello\n"));
    assert !Decisive(msgs[0]);
    NoAnnouncementFallback(msgs, None);
    assert msgs[1] == ExitStatus(0);
  }
}
