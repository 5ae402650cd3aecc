/** A string slice: a prefix of a backing array that appends and in-place removals share. */
module Slices {
  import opened Basics

  datatype Slice = Slice(buf: array<string>, len: nat)

  ghost predicate InBounds(s: Slice) { s.len <= s.buf.Length }

  /** The elements a slice shows. */
  function Elements(s: Slice): seq<string>
    reads s.buf
  {
    if s.len <= s.buf.Length then s.buf[..s.len] else []
  }

  method Singleton(x: string) returns (r: Slice)
    ensures InBounds(r) && fresh(r.buf) && Elements(r) == [x]
  {
    var buf := new string[1](_ => x);
    return Slice(buf, 1);
  }

  /** A slice over a backing array of its own. */
  method FromSeq(xs: seq<string>) returns (r: Slice)
    ensures InBounds(r) && fresh(r.buf) && Elements(r) == xs
  {
    var buf := new string[|xs|](i requires 0 <= i < |xs| => xs[i]);
    r := Slice(buf, |xs|);
    assert buf[..|xs|] == xs;
  }

  /** Writes into the spare room of the backing array when there is any, and moves to a larger one otherwise. */
  method Append(s: Slice, x: string) returns (r: Slice)
    requires InBounds(s)
    modifies s.buf
    ensures InBounds(r) && Elements(r) == old(Elements(s)) + [x]
    ensures r.buf == s.buf || fresh(r.buf)
    ensures Elements(s) == old(Elements(s))
  {
    if s.len < s.buf.Length {
      s.buf[s.len] := x;
      return Slice(s.buf, s.len + 1);
    }
    var buf := new string[2 * s.len + 1](_ => "");
    for i := 0 to s.len
      modifies buf
      invariant buf[..i] == s.buf[..i]
    {
      buf[i] := s.buf[i];
    }
    buf[s.len] := x;
    return Slice(buf, s.len + 1);
  }

  /** Moves everything behind position `i` down by one, in place, and shortens the slice. */
  method CloseGap(s: Slice, i: nat) returns (r: Slice)
    requires InBounds(s) && i < s.len
    modifies s.buf
    ensures InBounds(r) && r.buf == s.buf && r.len == s.len - 1
    ensures Elements(r) == old(Elements(s))[..i] + old(Elements(s))[i + 1..]
  {
    ghost var was := s.buf[..];
    for j := i to s.len - 1
      invariant s.buf[..i] == was[..i]
      invariant s.buf[i..j] == was[i + 1..j + 1]
      invariant s.buf[j..] == was[j..]
    {
      assert s.buf[j + 1] == s.buf[j..][1] == was[j..][1] == was[j + 1];
      assert s.buf[j + 1..] == s.buf[j..][1..] == was[j..][1..] == was[j + 1..];
      s.buf[j] := s.buf[j + 1];
    }
    r := Slice(s.buf, s.len - 1);
    assert s.buf[..s.len - 1] == s.buf[..i] + s.buf[i..s.len - 1];
    assert was[..s.len][i + 1..] == was[i + 1..s.len];
  }

  /** Position of the first `x`, or the length when there is none. */
  method Find(s: Slice, x: string) returns (i: nat)
    requires InBounds(s)
    ensures i <= s.len
    ensures x !in Elements(s)[..i]
    ensures i < s.len ==> Elements(s)[i] == x
  {
    i := 0;
    while i < s.len && s.buf[i] != x
      invariant i <= s.len
      invariant x !in s.buf[..i]
    {
      i := i + 1;
    }
  }
}
