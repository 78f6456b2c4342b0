/** Bytes, and overlaying a run of elements on a sequence. */
module Bytes {

  newtype byte = b: int | 0 <= b < 256

  datatype Option<+T> = None | Some(value: T)

  /** `s` with the elements of `d` laid over positions `at`, `at + 1`, ... */
  function Blit<T>(s: seq<T>, at: nat, d: seq<T>): (r: seq<T>)
    requires at + |d| <= |s|
    ensures |r| == |s|
  {
    s[..at] + d + s[at + |d|..]
  }

  /** The run is where it was laid, and what stands before and behind it is as it was. */
  lemma {:induction false} BlitParts<T>(s: seq<T>, at: nat, d: seq<T>)
    requires at + |d| <= |s|
    ensures Blit(s, at, d)[at..at + |d|] == d
    ensures Blit(s, at, d)[..at] == s[..at] && Blit(s, at, d)[at + |d|..] == s[at + |d|..]
  {
  }

  /** Laying two adjacent runs one after the other is laying their concatenation. */
  lemma {:induction false} BlitAppend<T>(s: seq<T>, at: nat, d: seq<T>, e: seq<T>)
    requires at + |d| + |e| <= |s|
    ensures Blit(Blit(s, at, d), at + |d|, e) == Blit(s, at, d + e)
  {
    var mid := Blit(s, at, d);
    assert mid[..at + |d|] == s[..at] + d;
    assert mid[at + |d| + |e|..] == s[at + |d| + |e|..];
    assert Blit(mid, at + |d|, e) == s[..at] + d + e + s[at + |d| + |e|..];
  }
}
