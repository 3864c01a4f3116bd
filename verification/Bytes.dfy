/** Bytes, byte sequences and the overwriting of a stretch of a sequence. */
module Bytes {

  type byte = x: int | 0 <= x < 256

  function Zeros(n: nat): (z: seq<byte>)
    ensures |z| == n
  {
    seq(n, _ => 0)
  }

  /** `s` with the elements from position `a` on replaced by `d`. */
  function Splice<T>(s: seq<T>, a: nat, d: seq<T>): (r: seq<T>)
    requires a + |d| <= |s|
    ensures |r| == |s|
    ensures forall i :: 0 <= i < |s| ==> r[i] == if a <= i < a + |d| then d[i - a] else s[i]
  {
    s[..a] + d + s[a + |d|..]
  }

  /** Two adjacent overwrites are one. */
  lemma SpliceSplice<T>(s: seq<T>, a: nat, d: seq<T>, e: seq<T>)
    requires a + |d| + |e| <= |s|
    ensures Splice(Splice(s, a, d), a + |d|, e) == Splice(s, a, d + e)
  {
  }

  /** An overwrite inside the first part of a concatenation leaves the second part alone. */
  lemma SpliceLeft<T>(s: seq<T>, t: seq<T>, a: nat, d: seq<T>)
    requires a + |d| <= |s|
    ensures Splice(s + t, a, d) == Splice(s, a, d) + t
  {
  }

  lemma SpliceRight<T>(s: seq<T>, t: seq<T>, a: nat, d: seq<T>)
    requires |s| <= a && a + |d| <= |s| + |t|
    ensures Splice(s + t, a, d) == s + Splice(t, a - |s|, d)
  {
  }

  lemma SpliceNothing<T>(s: seq<T>, a: nat)
    requires a <= |s|
    ensures Splice(s, a, []) == s
  {
  }

  lemma SliceOfSlice<T>(s: seq<T>, a: nat, b: nat, o: nat, n: nat)
    requires a + b <= |s| && o + n <= b
    ensures s[a + o..a + o + n] == s[a..a + b][o..o + n]
  {
    var x, y := s[a + o..a + o + n], s[a..a + b][o..o + n];
    assert |x| == |y|;
    assert forall i :: 0 <= i < n ==> x[i] == y[i];
  }

  lemma TakeMore<T>(s: seq<T>, a: nat, b: nat)
    requires a <= b <= |s|
    ensures s[..a] + s[a..b] == s[..b]
  {
  }

  lemma TakeRest<T>(s: seq<T>, a: nat, r: seq<T>)
    requires a <= |s|
    ensures s[..a] + (s[a..] + r) == s + r
    ensures s[..a] + s[a..] == s && s + [] == s && [] + s == s
  {
  }

  lemma ZerosSum(m: nat, n: nat)
    ensures Zeros(m) + Zeros(n) == Zeros(m + n)
  {
  }

  /** A file after writing `d` at offset `at`: overwritten, and longer if `d` reaches past its end. */
  function Overwrite(s: seq<byte>, at: nat, d: seq<byte>): (r: seq<byte>)
    requires at <= |s|
    ensures |r| == if at + |d| > |s| then at + |d| else |s|
  {
    s[..at] + d + (if at + |d| < |s| then s[at + |d|..] else [])
  }

  lemma SpliceIsOverwrite(s: seq<byte>, size: nat, at: nat, d: seq<byte>, rest: seq<byte>, end: nat)
    requires at <= size <= |s| && at + |d| + |rest| <= |s|
    requires end == if at + |d| > size then at + |d| else size
    requires rest != [] ==> at + |d| >= size
    ensures Splice(s, at, d + rest)[..end] == Overwrite(s[..size], at, d)
  {
  }
}
