/** Sequences: their elements, and facts that proofs elsewhere cite by name. */
module Seqs {

  ghost function ToSet<T>(s: seq<T>): set<T> {
    set x | x in s
  }

  ghost predicate NoDup<T>(s: seq<T>) {
    forall i, j :: 0 <= i < j < |s| ==> s[i] != s[j]
  }

  lemma InitLast<T>(s: seq<T>)
    requires s != []
    ensures s == s[..|s| - 1] + [s[|s| - 1]]
  {
  }

  lemma LastTwo<T>(s: seq<T>)
    requires |s| >= 2
    ensures s == s[..|s| - 2] + [s[|s| - 2], s[|s| - 1]]
  {
  }

  lemma Assoc<T>(a: seq<T>, b: seq<T>, c: seq<T>)
    ensures a + b + c == a + (b + c)
  {
  }

  lemma AppendInit<T>(s: seq<T>, x: T)
    ensures (s + [x])[..|s|] == s
  {
  }

  lemma ConcatInit<T>(a: seq<T>, b: seq<T>)
    requires b != []
    ensures (a + b)[..|a + b| - 1] == a + b[..|b| - 1] && (a + b)[|a + b| - 1] == b[|b| - 1]
  {
  }

  lemma PrefixOfPrefix<T>(s: seq<T>, n: nat, m: nat)
    requires m <= n <= |s|
    ensures s[..n][..m] == s[..m]
  {
  }

  lemma PrefixSlice<T>(s: seq<T>, k: nat, a: nat, b: nat)
    requires a <= b <= k <= |s|
    ensures s[..k][a..b] == s[a..b]
  {
    assert forall i :: 0 <= i < b - a ==> s[..k][a..b][i] == s[..k][a + i] == s[a..b][i];
  }

  lemma SliceOneMore<T>(s: seq<T>, a: nat, k: nat)
    requires a <= k < |s|
    ensures s[a..k + 1] == s[a..k] + [s[k]]
  {
  }

  lemma SliceOfSlice<T>(s: seq<T>, lo: nat, hi: nat, c: nat, d: nat)
    requires lo <= hi <= |s| && c <= d <= hi - lo
    ensures s[lo..hi][c..d] == s[lo + c..lo + d]
  {
    var t := s[lo..hi];
    assert forall k :: 0 <= k < |t| ==> t[k] == s[lo + k];
    assert forall k :: 0 <= k < d - c ==> t[c..d][k] == t[c + k] == s[lo + c..lo + d][k];
  }
}
