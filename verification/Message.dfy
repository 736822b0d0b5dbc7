/**
 The reading side of a message buffer, on the bytes from the cursor on.

 The buffer type itself belongs to the libq2 library, which is not part of the
 repository: strings are assumed to be sent with a terminating zero byte.
 */
module Message {
  import opened Wrappers
  import opened Octets

  /** A string as it can be sent: it holds no zero byte. */
  type Text = b: Bytes | (0 as Byte) !in b witness []

  /** The text of a byte string, one character per byte. */
  function Latin(b: Bytes): string {
    seq(|b|, i requires 0 <= i < |b| => (b[i] as int) as char)
  }

  lemma LatinBytes(b: Bytes)
    ensures |Latin(b)| == |b| && forall i | 0 <= i < |b| :: Latin(b)[i] as int == b[i] as int
  {
  }

  /** Text that is sent one byte per character, up to the terminator. */
  predicate Sendable(s: string) {
    forall i | 0 <= i < |s| :: 0 < s[i] as int < 256
  }

  function Narrow(s: string): (t: Text)
    requires Sendable(s)
    ensures Latin(t) == s
  {
    seq(|s|, i requires 0 <= i < |s| => (s[i] as int) as Byte)
  }

  function Terminated(t: Text): Bytes { t + [0] }

  /** The string at the front of the data and what follows its terminator. */
  function SplitText(data: Bytes): (r: Option<(Text, Bytes)>)
    ensures r.Some? ==> data == Terminated(r.value.0) + r.value.1
    ensures r.None? <==> (0 as Byte) !in data
  {
    if data == [] then None
    else if data[0] == 0 then
      assert data == Terminated([]) + data[1..];
      Some(([], data[1..]))
    else
      match SplitText(data[1..])
      case None => None
      case Some(p) =>
        assert data == Terminated([data[0]] + p.0) + p.1;
        Some(([data[0]] + p.0, p.1))
  }

  lemma {:induction false} SplitTerminated(t: Text, tail: Bytes)
    ensures SplitText(Terminated(t) + tail) == Some((t, tail))
  {
    var data := Terminated(t) + tail;
    if t == [] {
      assert data[1..] == tail;
    } else {
      assert (0 as Byte) !in t[1..];
      assert data[1..] == Terminated(t[1..]) + tail;
      SplitTerminated(t[1..], tail);
      assert [t[0]] + t[1..] == t;
    }
  }

  /** What a scan for the terminator has found when it stops. */
  lemma ScannedTo(data: Bytes, from: nat, end: nat)
    requires from <= end <= |data| && (0 as Byte) !in data[from..end]
    ensures end == |data| ==> SplitText(data[from..]) == None
    ensures end < |data| && data[end] == 0
            ==> SplitText(data[from..]) == Some((data[from..end], data[end + 1..]))
  {
    if end < |data| && data[end] == 0 {
      assert data[from..] == Terminated(data[from..end]) + data[end + 1..];
      SplitTerminated(data[from..end], data[end + 1..]);
    }
  }

  /** A string behind a fixed header is found by skipping the header. */
  lemma TextAfter(header: Bytes, t: Text, tail: Bytes)
    ensures var data := header + Terminated(t) + tail;
            && data[..|header|] == header
            && SplitText(data[|header|..]) == Some((t, tail))
  {
    var data := header + Terminated(t) + tail;
    assert data[|header|..] == Terminated(t) + tail;
    SplitTerminated(t, tail);
  }
}
