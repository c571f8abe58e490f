/** Cutting sequences and putting them together. */
module Seqs {

  lemma CutAt<T>(s: seq<T>, k: int)
    requires 0 <= k <= |s|
    ensures s == s[..k] + s[k..]
  {
  }

  lemma CutAround<T>(s: seq<T>, k: int)
    requires 0 <= k < |s|
    ensures s == s[..k] + [s[k]] + s[k + 1..]
    ensures s[..k + 1] == s[..k] + [s[k]] && s[k..k + 1] == [s[k]]
  {
  }

  lemma CutBetween<T>(s: seq<T>, k: int, l: int)
    requires 0 <= k <= l <= |s|
    ensures s == s[..k] + s[k..l] + s[l..]
  {
  }

  lemma UpdateIsCut<T>(s: seq<T>, k: int, x: T)
    requires 0 <= k < |s|
    ensures s[k := x] == s[..k] + [x] + s[k + 1..]
  {
  }

  lemma Exchange<T>(a: seq<T>, x: T, c: seq<T>, y: T)
    ensures (a + [x] + c)[|a| := y] == a + [y] + c
    ensures (a + [x] + c)[..|a|] == a && (a + [x] + c)[|a| + 1..] == c && (a + [x] + c)[|a|] == x
  {
  }

  lemma NothingBetween<T>(a: seq<T>, c: seq<T>)
    ensures a + [] + c == a + c && a + [] == a && [] + a == a
  {
  }

  /** A range in three pieces. */
  lemma CutRange<T>(s: seq<T>, a: int, b: int, c: int, d: int)
    requires 0 <= a <= b <= c <= d <= |s|
    ensures s[a..d] == s[a..b] + s[b..c] + s[c..d]
  {
  }

  /** Ranges of equal prefixes and equal suffixes are equal. */
  lemma PrefixRange<T>(s: seq<T>, t: seq<T>, n: int, a: int, b: int)
    requires 0 <= a <= b <= n <= |s| && n <= |t| && s[..n] == t[..n]
    ensures s[a..b] == t[a..b]
  {
    forall k | a <= k < b ensures s[k] == t[k] { assert s[..n][k] == s[k] && t[..n][k] == t[k]; }
  }

  lemma SuffixRange<T>(s: seq<T>, t: seq<T>, n: int, a: int, b: int)
    requires |s| == |t| && 0 <= n <= a <= b <= |s| && s[n..] == t[n..]
    ensures s[a..b] == t[a..b]
  {
    forall k | a <= k < b ensures s[k] == t[k] { assert s[n..][k - n] == s[k] && t[n..][k - n] == t[k]; }
  }

  lemma Assoc<T>(a: seq<T>, b: seq<T>, c: seq<T>)
    ensures a + b + c == a + (b + c)
  {
  }

  lemma Tail<T>(x: T, s: seq<T>)
    ensures ([x] + s)[1..] == s && ([x] + s)[0] == x
  {
  }
}
