/** Byte-level text handling that the PID scanner relies on: ASCII lower-casing
    (Rust's `to_ascii_lowercase` on a byte slice), conversion between ASCII text
    and bytes, and the UTF-8 well-formedness rule that `String::from_utf8`
    enforces. */
module Text {
  import opened Wire

  predicate IsUpper(b: byte) { 0x41 <= b <= 0x5A }    // 'A' ..= 'Z'
  predicate IsLower(b: byte) { 0x61 <= b <= 0x7A }    // 'a' ..= 'z'

  /** ASCII lower-casing of one byte. */
  function LowerByte(b: byte): (r: byte)
    ensures !IsUpper(r)
    ensures r != b <==> IsUpper(b)
    ensures IsUpper(b) ==> IsLower(r) && r - b == 0x20
  {
    if IsUpper(b) then b + 0x20 else b
  }

  /** ASCII lower-casing of a chunk, byte by byte. */
  function Lower(s: seq<byte>): (r: seq<byte>)
    ensures |r| == |s|
    ensures forall t :: 0 <= t < |s| ==> r[t] == LowerByte(s[t])
  {
    seq(|s|, t requires 0 <= t < |s| => LowerByte(s[t]))
  }

  /** Lower-casing leaves no upper-case letter behind and never touches a byte
      outside ASCII, so the multi-byte sequences of UTF-8 text pass unchanged. */
  lemma LowerEffect(s: seq<byte>)
    ensures forall t :: 0 <= t < |s| ==> !IsUpper(Lower(s)[t])
    ensures forall t :: 0 <= t < |s| && s[t] >= 0x80 ==> Lower(s)[t] == s[t]
  {
  }

  /** Two chunks that differ at most in the case of ASCII letters. */
  ghost predicate SameUpToCase(a: seq<byte>, b: seq<byte>)
  {
    |a| == |b| &&
    forall t :: 0 <= t < |a| ==>
      a[t] == b[t] ||
      (IsUpper(a[t]) && b[t] == a[t] + 0x20) ||
      (IsUpper(b[t]) && a[t] == b[t] + 0x20)
  }

  /** Lower-casing cannot tell apart chunks that differ only in letter case,
      and it leaves nothing upper-case behind. */
  lemma LowerFoldsCase(a: seq<byte>, b: seq<byte>)
    requires SameUpToCase(a, b)
    ensures Lower(a) == Lower(b)
    ensures Lower(Lower(a)) == Lower(a)
  {
    assert forall t :: 0 <= t < |a| ==> Lower(a)[t] == Lower(b)[t];
  }

  /** The bytes of a string whose characters are all below 256. */
  function Ascii(s: string): (r: seq<byte>)
    ensures |r| == |s|
  {
    seq(|s|, t requires 0 <= t < |s| => (s[t] as int % 0x100) as byte)
  }

  /** The string whose characters are the given bytes (Latin-1 reading; for
      ASCII bytes this is what `str::to_string` gives). */
  function AsText(s: seq<byte>): (r: string)
    ensures |r| == |s|
    ensures forall t :: 0 <= t < |s| ==> r[t] as int == s[t] as int
  {
    seq(|s|, t requires 0 <= t < |s| => s[t] as int as char)
  }

  /** Reading bytes as text and writing the text back as bytes is the identity. */
  lemma AsciiOfText(s: seq<byte>)
    ensures Ascii(AsText(s)) == s
  {
    assert forall t :: 0 <= t < |s| ==> Ascii(AsText(s))[t] == s[t];
  }

  // ---------------------------------------------------------------------------
  // UTF-8 (the well-formed byte sequences of table 3-7 of the Unicode Standard)

  predicate IsContinuation(b: byte) { 0x80 <= b <= 0xBF }

  /** Length of the well-formed UTF-8 sequence that starts `s`, or 0 if `s` does
      not start with one. */
  function Utf8Width(s: seq<byte>): (w: nat)
    ensures w <= |s| && w <= 4
    ensures s != [] && s[0] < 0x80 ==> w == 1
    ensures w > 1 ==> s[0] >= 0xC2 && forall t :: 1 <= t < w ==> IsContinuation(s[t])
  {
    if |s| == 0 then 0
    else if s[0] < 0x80 then 1
    else if 0xC2 <= s[0] <= 0xDF then
      if |s| >= 2 && IsContinuation(s[1]) then 2 else 0
    else if s[0] == 0xE0 then
      if |s| >= 3 && 0xA0 <= s[1] <= 0xBF && IsContinuation(s[2]) then 3 else 0
    else if 0xE1 <= s[0] <= 0xEC || 0xEE <= s[0] <= 0xEF then
      if |s| >= 3 && IsContinuation(s[1]) && IsContinuation(s[2]) then 3 else 0
    else if s[0] == 0xED then
      if |s| >= 3 && 0x80 <= s[1] <= 0x9F && IsContinuation(s[2]) then 3 else 0
    else if s[0] == 0xF0 then
      if |s| >= 4 && 0x90 <= s[1] <= 0xBF && IsContinuation(s[2]) && IsContinuation(s[3]) then 4 else 0
    else if 0xF1 <= s[0] <= 0xF3 then
      if |s| >= 4 && IsContinuation(s[1]) && IsContinuation(s[2]) && IsContinuation(s[3]) then 4 else 0
    else if s[0] == 0xF4 then
      if |s| >= 4 && 0x80 <= s[1] <= 0x8F && IsContinuation(s[2]) && IsContinuation(s[3]) then 4 else 0
    else 0
  }

  /** `s` is a concatenation of well-formed UTF-8 sequences: exactly the inputs
      on which `String::from_utf8` succeeds. */
  predicate ValidUtf8(s: seq<byte>)
    decreases |s|
  {
    s == [] || (Utf8Width(s) > 0 && ValidUtf8(s[Utf8Width(s)..]))
  }

  /** Valid UTF-8 text starts neither with a continuation byte nor with a byte
      that never occurs in UTF-8 (0xC0, 0xC1, 0xF5 and up), and ends with an
      ASCII or a continuation byte, never with a lead byte. */
  lemma {:induction false} Utf8Boundaries(s: seq<byte>)
    requires ValidUtf8(s) && s != []
    ensures !IsContinuation(s[0]) && s[0] != 0xC0 && s[0] != 0xC1 && s[0] < 0xF5
    ensures s[|s| - 1] < 0xC0
    decreases |s|
  {
    var w := Utf8Width(s);
    if w < |s| {
      Utf8Boundaries(s[w..]);
      assert s[|s| - 1] == s[w..][|s| - w - 1];
    }
  }

  /** Text made only of ASCII bytes is valid UTF-8. */
  lemma {:induction false} AsciiIsUtf8(s: seq<byte>)
    requires forall t :: 0 <= t < |s| ==> s[t] < 0x80
    ensures ValidUtf8(s)
  {
    if s != [] {
      AsciiIsUtf8(s[1..]);
    }
  }

  /** A continuation byte is never a letter, so lower-casing does not move the
      boundaries of UTF-8 sequences. */
  lemma Utf8WidthUnderLower(s: seq<byte>)
    ensures Utf8Width(Lower(s)) == Utf8Width(s)
  {
    var l := Lower(s);
    if |s| > 0 && s[0] >= 0x80 {
      assert l[0] == s[0];
      assert forall t :: 1 <= t < |s| ==> (IsContinuation(l[t]) <==> IsContinuation(s[t]));
      assert forall t :: 1 <= t < |s| && s[t] >= 0x80 ==> l[t] == s[t];
    }
  }

  /** Lower-casing a chunk neither makes nor breaks UTF-8 well-formedness: the
      `unwrap` in the scanner fails exactly on chunks that were not UTF-8 to
      begin with. */
  lemma {:induction false} LowerKeepsUtf8(s: seq<byte>)
    ensures ValidUtf8(Lower(s)) <==> ValidUtf8(s)
    decreases |s|
  {
    if s != [] {
      var w := Utf8Width(s);
      Utf8WidthUnderLower(s);
      if w > 0 {
        assert Lower(s)[w..] == Lower(s[w..]);
        LowerKeepsUtf8(s[w..]);
      }
    }
  }
}
