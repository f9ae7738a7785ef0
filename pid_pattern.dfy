/** The PID announcement pattern `server is on host (.*) on pid (\d+)`, matched
    against one lower-cased chunk. The pattern is written out as a search over
    bytes instead of a regular-expression engine: every literal of the pattern is
    ASCII and an ASCII byte never occurs inside a multi-byte UTF-8 sequence, so on
    a valid UTF-8 chunk a byte-level match is a character-level match. `.` is any
    byte but a line feed; `\d` is an ASCII digit. */
module PidPattern {
  import opened Wire
  import opened Text

  /** The literal before capture group 1 and the literal between the groups. */
  function HostMarker(): (m: seq<byte>)
    ensures |m| == 18
  {
    Ascii("server is on host ")
  }

  function PidMarker(): (m: seq<byte>)
    ensures |m| == 8
  {
    Ascii(" on pid ")
  }

  const LineFeed: byte := 0x0A

  predicate IsDigit(b: byte) { 0x30 <= b <= 0x39 }   // '0' ..= '9'

  /** The host literal occurs at `i`. */
  predicate HostAt(s: seq<byte>, i: nat)
  {
    i + |HostMarker()| <= |s| && s[i..i + |HostMarker()|] == HostMarker()
  }

  /** The pid literal occurs at `j` and a digit follows it. */
  predicate PidAt(s: seq<byte>, j: nat)
  {
    j + |PidMarker()| < |s| && s[j..j + |PidMarker()|] == PidMarker() && IsDigit(s[j + |PidMarker()|])
  }

  /** No line feed in `s[lo..hi]`. */
  ghost predicate OneLine(s: seq<byte>, lo: nat, hi: nat)
    requires hi <= |s|
  {
    forall t :: lo <= t < hi ==> s[t] != LineFeed
  }

  /** The pattern matches with the host literal at `i` and the pid literal at
      `j`: group 1 is `s[i + 18..j]`, which stays on one line. */
  ghost predicate Announces(s: seq<byte>, i: nat, j: nat)
  {
    HostAt(s, i) && i + |HostMarker()| <= j && PidAt(s, j) && OneLine(s, i + |HostMarker()|, j)
  }

  /** The match that the regular expression reports: the leftmost start, and for
      that start the greedy `.*`, i.e. the last pid literal that can follow. */
  ghost predicate FirstAnnouncement(s: seq<byte>, i: nat, j: nat)
  {
    Announces(s, i, j) &&
    (forall i': nat, j': nat :: i' < i ==> !Announces(s, i', j')) &&
    (forall j': nat :: Announces(s, i, j') ==> j' <= j)
  }

  /** Position of the first line feed at or after `p`, or `|s|`. */
  function LineEnd(s: seq<byte>, p: nat): (e: nat)
    requires p <= |s|
    ensures p <= e <= |s| && OneLine(s, p, e)
    ensures e < |s| ==> s[e] == LineFeed
    decreases |s| - p
  {
    if p == |s| || s[p] == LineFeed then p else LineEnd(s, p + 1)
  }

  /** The last position in `lo..=hi` where the pid literal and a digit occur. */
  function LastPidAt(s: seq<byte>, lo: nat, hi: nat): (r: Option<nat>)
    ensures r.Some? ==> lo <= r.value <= hi && PidAt(s, r.value)
    ensures r.Some? ==> forall j :: r.value < j <= hi ==> !PidAt(s, j)
    ensures r.None? ==> forall j :: lo <= j <= hi ==> !PidAt(s, j)
    decreases hi
  {
    if hi < lo then None
    else if PidAt(s, hi) then Some(hi)
    else if hi == lo then None
    else LastPidAt(s, lo, hi - 1)
  }

  /** The end of the run of digits that starts at `p` (greedy `\d+`). */
  function DigitRunEnd(s: seq<byte>, p: nat): (k: nat)
    requires p <= |s|
    ensures p <= k <= |s|
    ensures forall t :: p <= t < k ==> IsDigit(s[t])
    ensures k < |s| ==> !IsDigit(s[k])
    decreases |s| - p
  {
    if p == |s| || !IsDigit(s[p]) then p else DigitRunEnd(s, p + 1)
  }

  /** Positions of the two literals of a match. */
  datatype Site = Site(host: nat, pid: nat)

  /** Leftmost-first search for a match starting at or after `from`. */
  function FindAnnouncement(s: seq<byte>, from: nat): (r: Option<Site>)
    ensures r.Some? ==> from <= r.value.host && Announces(s, r.value.host, r.value.pid)
    ensures r.Some? ==> forall i: nat, j: nat :: from <= i < r.value.host ==> !Announces(s, i, j)
    ensures r.Some? ==> forall j: nat :: Announces(s, r.value.host, j) ==> j <= r.value.pid
    ensures r.None? ==> forall i: nat, j: nat :: from <= i ==> !Announces(s, i, j)
    decreases |s| - from
  {
    if |s| < from + |HostMarker()| then None
    else if HostAt(s, from) then
      var lo := from + |HostMarker()|;
      var e := LineEnd(s, lo);
      match LastPidAt(s, lo, e)
      case Some(j) =>
        LineFeedEndsGroup(s, lo, e);
        Some(Site(from, j))
      case None =>
        LineFeedEndsGroup(s, lo, e);
        FindAnnouncement(s, from + 1)
    else FindAnnouncement(s, from + 1)
  }

  /** Group 1 may reach up to the end of its line and no further. */
  lemma LineFeedEndsGroup(s: seq<byte>, lo: nat, e: nat)
    requires lo <= e <= |s| && OneLine(s, lo, e) && (e < |s| ==> s[e] == LineFeed)
    ensures forall j: nat :: j <= |s| ==> (OneLine(s, lo, j) <==> j <= e)
  {
    forall j: nat | j <= |s| && OneLine(s, lo, j)
      ensures j <= e
    {
      assert e < |s| ==> s[e] == LineFeed;
    }
  }

  /** Capture group 2 of the match whose pid literal is at `j`. */
  function Captured(s: seq<byte>, j: nat): (pid: seq<byte>)
    requires PidAt(s, j)
  {
    s[j + |PidMarker()|..DigitRunEnd(s, j + |PidMarker()|)]
  }

  /** What `Regex::captures` followed by `get(2)` yields on a chunk: capture
      group 2 of the leftmost-first match, or nothing if the pattern does not
      occur. */
  function FindPid(s: seq<byte>): (r: Option<seq<byte>>)
    ensures r.Some? <==> exists i: nat, j: nat :: Announces(s, i, j)
    ensures r.Some? ==> exists i: nat, j: nat :: FirstAnnouncement(s, i, j) && r.value == Captured(s, j)
  {
    match FindAnnouncement(s, 0)
    case Some(site) =>
      assert FirstAnnouncement(s, site.host, site.pid);
      Some(Captured(s, site.pid))
    case None => None
  }

  /** `pid` stands in `s` right after the pid literal at `j`, and the run of
      digits does not go on after it. */
  ghost predicate StandsAfterMarker(s: seq<byte>, j: nat, pid: seq<byte>)
  {
    var p := j + |PidMarker()|;
    p + |pid| <= |s| && s[j..p] == PidMarker() && s[p..p + |pid|] == pid &&
    (p + |pid| < |s| ==> !IsDigit(s[p + |pid|]))
  }

  /** A PID found in a chunk is a maximal, non-empty run of ASCII digits that
      stands right after " on pid " in the chunk. */
  lemma PidIsDigitsAfterMarker(s: seq<byte>, pid: seq<byte>)
    requires FindPid(s) == Some(pid)
    ensures |pid| >= 1
    ensures forall t :: 0 <= t < |pid| ==> IsDigit(pid[t])
    ensures exists j: nat :: StandsAfterMarker(s, j, pid)
  {
    var i: nat, j: nat :| FirstAnnouncement(s, i, j) && pid == Captured(s, j);
    CapturedDigits(s, j);
  }

  /** Group 2 is the whole run of digits after the pid literal at `j`. */
  lemma CapturedDigits(s: seq<byte>, j: nat)
    requires PidAt(s, j)
    ensures |Captured(s, j)| >= 1
    ensures forall t :: 0 <= t < |Captured(s, j)| ==> IsDigit(Captured(s, j)[t])
    ensures StandsAfterMarker(s, j, Captured(s, j))
  {
    var p := j + |PidMarker()|;
    var k := DigitRunEnd(s, p);
    assert IsDigit(s[p]);
    assert Captured(s, j) == s[p..k];
  }

  /** The leftmost-first match is unique, so group 2 is well defined. */
  lemma FirstAnnouncementUnique(s: seq<byte>, i1: nat, j1: nat, i2: nat, j2: nat)
    requires FirstAnnouncement(s, i1, j1) && FirstAnnouncement(s, i2, j2)
    ensures i1 == i2 && j1 == j2
  {
  }

  /** The PID found is group 2 of the leftmost-first match. */
  lemma FindPidOfFirst(s: seq<byte>, i: nat, j: nat)
    requires FirstAnnouncement(s, i, j)
    ensures FindPid(s) == Some(Captured(s, j))
  {
    var i', j' :| FirstAnnouncement(s, i', j') && FindPid(s).value == Captured(s, j');
    FirstAnnouncementUnique(s, i, j, i', j');
  }
}
