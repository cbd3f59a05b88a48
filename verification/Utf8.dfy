/**
  Byte lengths of Rust string slices: a `string` here is a sequence of Unicode scalar values and
  byte offsets into it are those of its UTF-8 form (section 3 of RFC 3629).
 */
module Utf8 {
  function Width(c: char): (w: nat)
    ensures 1 <= w <= 4
  {
    if (c as int) < 0x80 then 1 else if (c as int) < 0x800 then 2 else if (c as int) < 0x1_0000 then 3 else 4
  }

  /** The bytes of a character, as section 3 of RFC 3629 lays them out. */
  function Bytes(c: char): (bs: seq<int>)
    ensures |bs| == Width(c)
    ensures if 0 <= bs[0] < 0x80 then |bs| == 1
            else if bs[0] < 0xC0 then false
            else if bs[0] < 0xE0 then |bs| == 2
            else if bs[0] < 0xF0 then |bs| == 3
            else bs[0] < 0xF8 && |bs| == 4
    ensures forall i :: 0 < i < |bs| ==> 0x80 <= bs[i] < 0xC0
  {
    var n := c as int;
    if n < 0x80 then [n]
    else if n < 0x800 then [0xC0 + n / 0x40, 0x80 + n % 0x40]
    else if n < 0x1_0000 then [0xE0 + n / 0x1000, 0x80 + n / 0x40 % 0x40, 0x80 + n % 0x40]
    else [0xF0 + n / 0x4_0000, 0x80 + n / 0x1000 % 0x40, 0x80 + n / 0x40 % 0x40, 0x80 + n % 0x40]
  }

  /** The payload bits of the bytes, put together. */
  function CodePoint(bs: seq<int>): int {
    if |bs| == 1 then bs[0]
    else if |bs| == 2 then (bs[0] - 0xC0) * 0x40 + (bs[1] - 0x80)
    else if |bs| == 3 then ((bs[0] - 0xE0) * 0x40 + (bs[1] - 0x80)) * 0x40 + (bs[2] - 0x80)
    else if |bs| == 4 then
      (((bs[0] - 0xF0) * 0x40 + (bs[1] - 0x80)) * 0x40 + (bs[2] - 0x80)) * 0x40 + (bs[3] - 0x80)
    else -1
  }

  lemma SixBits(n: nat)
    ensures n == n / 0x40 * 0x40 + n % 0x40
    ensures n / 0x40 == n / 0x1000 * 0x40 + n / 0x40 % 0x40
    ensures n / 0x1000 == n / 0x4_0000 * 0x40 + n / 0x1000 % 0x40
  {
  }

  /** No fewer bytes would do: the width is that of the shortest form, and the form gives the character back. */
  lemma WidthIsShortest(c: char)
    ensures CodePoint(Bytes(c)) == c as int
    ensures Width(c) > 1 ==> c as int >= 0x80
    ensures Width(c) > 2 ==> c as int >= 0x800
    ensures Width(c) > 3 ==> c as int >= 0x1_0000
  {
    SixBits(c as int);
  }

  /** `s.len()` */
  function ByteLen(s: string): nat {
    if s == [] then 0 else ByteLen(s[..|s| - 1]) + Width(s[|s| - 1])
  }

  lemma {:induction false} AsciiLength(s: string)
    requires forall i :: 0 <= i < |s| ==> (s[i] as int) < 0x80
    ensures ByteLen(s) == |s|
  {
    if s != [] {
      AsciiLength(s[..|s| - 1]);
    }
  }

  /** `s.is_char_boundary(end)` */
  predicate IsCharBoundary(s: string, end: nat) {
    ByteLen(s) == end || (s != [] && IsCharBoundary(s[..|s| - 1], end))
  }

  /** `&s[..end]` */
  function SliceTo(s: string, end: nat): (t: string)
    requires IsCharBoundary(s, end)
    ensures t <= s && ByteLen(t) == end
  {
    if ByteLen(s) == end then s else SliceTo(s[..|s| - 1], end)
  }

  /** The longest prefix of `s` that takes at most `maxBytes` bytes. */
  function Truncated(s: string, maxBytes: nat): (t: string)
    ensures t <= s && ByteLen(t) <= maxBytes
  {
    if ByteLen(s) <= maxBytes then s else Truncated(s[..|s| - 1], maxBytes)
  }

  lemma {:induction false} LengthGrows(s: string, k: nat)
    requires k <= |s|
    ensures ByteLen(s[..k]) + (|s| - k) <= ByteLen(s)
    decreases |s| - k
  {
    if k == |s| {
      assert s[..k] == s;
    } else {
      LengthGrows(s, k + 1);
      assert s[..k + 1][..k] == s[..k];
    }
  }

  /** No longer prefix fits. */
  lemma {:induction false} TruncatedIsLongest(s: string, maxBytes: nat, k: nat)
    requires k <= |s| && ByteLen(s[..k]) <= maxBytes
    ensures k <= |Truncated(s, maxBytes)|
  {
    assert s[..|s|] == s;
    if ByteLen(s) > maxBytes {
      assert s[..|s| - 1][..k] == s[..k];
      TruncatedIsLongest(s[..|s| - 1], maxBytes, k);
    }
  }

  lemma {:induction false} BoundaryIsPrefix(s: string, end: nat)
    requires IsCharBoundary(s, end)
    ensures exists k: nat :: k <= |s| && ByteLen(s[..k]) == end
  {
    if ByteLen(s) == end {
      assert s[..|s|] == s;
    } else {
      BoundaryIsPrefix(s[..|s| - 1], end);
      var k: nat :| k <= |s| - 1 && ByteLen(s[..|s| - 1][..k]) == end;
      assert s[..|s| - 1][..k] == s[..k];
    }
  }

  lemma {:induction false} PrefixIsBoundary(s: string, k: nat)
    requires k <= |s|
    ensures IsCharBoundary(s, ByteLen(s[..k]))
  {
    if k == |s| {
      assert s[..k] == s;
    } else {
      assert s[..|s| - 1][..k] == s[..k];
      PrefixIsBoundary(s[..|s| - 1], k);
    }
  }

  /** A boundary in the window above which nothing fits is where the longest fitting prefix ends. */
  lemma CutIsTruncated(s: string, maxBytes: nat, end: nat)
    requires end <= maxBytes && IsCharBoundary(s, end)
    requires forall e: nat :: end < e <= maxBytes ==> !IsCharBoundary(s, e)
    ensures SliceTo(s, end) == Truncated(s, maxBytes)
  {
    var t, u := SliceTo(s, end), Truncated(s, maxBytes);
    assert s[..|t|] == t && s[..|u|] == u;
    TruncatedIsLongest(s, maxBytes, |t|);
    PrefixIsBoundary(s, |u|);
    LengthGrows(u, |t|);
    assert u[..|t|] == t;
  }

  /** `truncate_at_char_boundary`: walk the byte offset back to a boundary and cut there. */
  method TruncateAtCharBoundary(s: string, maxBytes: nat) returns (t: string)
    ensures t <= s && ByteLen(t) <= maxBytes
    ensures |t| < |s| ==> ByteLen(s[..|t| + 1]) > maxBytes
    ensures t == Truncated(s, maxBytes)
  {
    if ByteLen(s) <= maxBytes {
      return s;
    }
    var end := maxBytes;
    PrefixIsBoundary(s, 0);
    while end > 0 && !IsCharBoundary(s, end)
      invariant end <= maxBytes
      invariant forall e: nat :: end < e <= maxBytes ==> !IsCharBoundary(s, e)
    {
      end := end - 1;
    }
    CutIsTruncated(s, maxBytes, end);
    t := SliceTo(s, end);
    if |t| < |s| && ByteLen(s[..|t| + 1]) <= maxBytes {
      TruncatedIsLongest(s, maxBytes, |t| + 1);
    }
  }
}
