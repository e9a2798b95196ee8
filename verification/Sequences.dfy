/** Facts about putting sequences together and taking them apart. */
module Sequences {

  lemma Associative<T>(a: seq<T>, b: seq<T>, c: seq<T>)
    ensures (a + b) + c == a + (b + c)
  {
  }

  lemma FourParts<T>(a: seq<T>, b: seq<T>, c: seq<T>, d: seq<T>)
    ensures a + b + c + d == a + (b + (c + d))
  {
  }

  lemma Halves<T>(s: seq<T>, n: nat)
    requires n <= |s|
    ensures s[..n] + s[n..] == s
  {
  }

  /** The pieces of a concatenation. */
  lemma Pieces<T>(a: seq<T>, b: seq<T>)
    ensures (a + b)[..|a|] == a && (a + b)[|a|..] == b
  {
  }

  lemma SameHalves<T>(a: seq<T>, b: seq<T>, s: seq<T>)
    requires |a| + |b| == |s|
    ensures a + b == s <==> a == s[..|a|] && b == s[|a|..]
  {
    Pieces(a, b);
    Halves(s, |a|);
  }

  lemma DropTwice<T>(s: seq<T>, a: nat, n: nat)
    requires a + n <= |s|
    ensures s[a..][n..] == s[a + n..]
  {
  }

  lemma CutTwice<T>(s: seq<T>, m: nat, n: nat)
    requires m + n <= |s|
    ensures s[..m + n][..m] == s[..m] && s[..m + n][m..] == s[m..][..n] && s[m..][n..] == s[m + n..]
  {
  }

  /** Dropping from a concatenation, in its first part and beyond it. */
  lemma DropFromBoth<T>(a: seq<T>, b: seq<T>, n: nat)
    requires n <= |a| + |b|
    ensures (a + b)[n..] == if n <= |a| then a[n..] + b else b[n - |a|..]
  {
  }

  lemma PrefixesAgree<T>(a: seq<T>, b: seq<T>, n: nat)
    requires a <= b && n <= |a|
    ensures a[..n] == b[..n]
  {
  }
}
