/** Bytes, and writing a stretch of them over a longer one. */
module Bytes {

  type byte = x: int | 0 <= x < 256

  // `s` with `x` written from `at` on.
  function Splice<T>(s: seq<T>, at: nat, x: seq<T>): (r: seq<T>)
    requires at + |x| <= |s|
    ensures |r| == |s|
    ensures forall k {:trigger r[k]} :: 0 <= k < |s| ==> r[k] == if at <= k < at + |x| then x[k - at] else s[k]
  {
    seq(|s|, k requires 0 <= k < |s| => if at <= k < at + |x| then x[k - at] else s[k])
  }

  // A slice that holds the written bytes.
  lemma SliceOver<T>(s: seq<T>, at: nat, x: seq<T>, lo: nat, hi: nat)
    requires lo <= at && at + |x| <= hi <= |s|
    ensures Splice(s, at, x)[lo..hi] == Splice(s[lo..hi], at - lo, x)
  {
    var l, r := Splice(s, at, x)[lo..hi], Splice(s[lo..hi], at - lo, x);
    assert forall k :: 0 <= k < |l| ==> l[k] == r[k];
  }

  lemma SliceOfSlice<T>(s: seq<T>, a: nat, b: nat, lo: nat, hi: nat)
    requires a <= b <= |s| && lo <= hi <= b - a
    ensures s[a..b][lo..hi] == s[a + lo..a + hi]
  {
    var l, r := s[a..b][lo..hi], s[a + lo..a + hi];
    assert forall k :: 0 <= k < |l| ==> l[k] == r[k];
  }

  lemma SpliceLeft<T>(a: seq<T>, b: seq<T>, at: nat, x: seq<T>)
    requires at + |x| <= |a|
    ensures Splice(a + b, at, x) == Splice(a, at, x) + b
  {
    var l, r := Splice(a + b, at, x), Splice(a, at, x) + b;
    assert forall k :: 0 <= k < |l| ==> l[k] == r[k];
  }

  lemma SpliceRight<T>(a: seq<T>, b: seq<T>, at: nat, x: seq<T>)
    requires at + |x| <= |b|
    ensures Splice(a + b, |a| + at, x) == a + Splice(b, at, x)
  {
    var l, r := Splice(a + b, |a| + at, x), a + Splice(b, at, x);
    assert forall k :: 0 <= k < |l| ==> l[k] == r[k];
  }
}
