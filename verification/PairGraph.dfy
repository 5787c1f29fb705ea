/**
  The directed graph given by a list of (parent, child) pairs, as the dependency
  sorter receives it. Duplicate pairs and self-loops are allowed. Cycles and chains
  are defined by walks alone, with no reference to any sorting algorithm.
*/
module PairGraph {
  import opened Seqs

  ghost predicate Edge<T>(pairs: seq<(T, T)>, p: T, c: T) {
    (p, c) in pairs
  }

  /** A nonempty list of elements, each joined to the next by an edge. */
  ghost predicate Walk<T>(pairs: seq<(T, T)>, w: seq<T>) {
    && w != []
    && forall i, j :: 0 <= i && j == i + 1 && j < |w| ==> Edge(pairs, w[i], w[j])
  }

  /** A walk that ends at x and starts by going once around a cycle. */
  ghost predicate Lasso<T>(pairs: seq<(T, T)>, w: seq<T>, k: nat, x: T) {
    && Walk(pairs, w)
    && 0 < k < |w|
    && w[0] == w[k]
    && w[|w| - 1] == x
  }

  /** x lies on a cycle or can be reached from one. */
  ghost predicate BelowCycle<T(!new)>(pairs: seq<(T, T)>, x: T) {
    exists w, k :: Lasso(pairs, w, k, x)
  }

  ghost predicate Acyclic<T(!new)>(pairs: seq<(T, T)>) {
    forall w :: Walk(pairs, w) && |w| > 1 ==> w[0] != w[|w| - 1]
  }

  /** x is the last of a chain of n edges, so it has n generations of predecessors. */
  ghost predicate HasChain<T(!new)>(pairs: seq<(T, T)>, x: T, n: nat) {
    exists w :: Walk(pairs, w) && |w| == n + 1 && w[n] == x
  }

  /** Everything that occurs in some pair. */
  ghost function Elements<T>(pairs: seq<(T, T)>): set<T> {
    if pairs == [] then {} else
      var e := pairs[|pairs| - 1];
      Elements(pairs[..|pairs| - 1]) + {e.0, e.1}
  }

  /** Every parent of an element of s occurs in s before that element. */
  ghost predicate ParentsFirst<T(!new)>(pairs: seq<(T, T)>, s: seq<T>) {
    forall k, p :: 0 <= k < |s| && Edge(pairs, p, s[k]) ==> p in s[..k]
  }

  /** Every element of s has a parent in s. */
  ghost predicate Supported<T(!new)>(pairs: seq<(T, T)>, s: set<T>) {
    forall x {:trigger HasParentIn(pairs, s, x)} :: x in s ==> HasParentIn(pairs, s, x)
  }

  ghost predicate HasParentIn<T(!new)>(pairs: seq<(T, T)>, s: set<T>, x: T) {
    exists p :: p in s && Edge(pairs, p, x)
  }

  lemma {:induction false} EdgeInElements<T>(pairs: seq<(T, T)>, p: T, c: T)
    requires Edge(pairs, p, c)
    ensures p in Elements(pairs) && c in Elements(pairs)
  {
    var init, e := pairs[..|pairs| - 1], pairs[|pairs| - 1];
    assert pairs == init + [e];
    if (p, c) != e {
      EdgeInElements(init, p, c);
    }
  }

  // ---------------------------------------------------------------- pigeonhole

  lemma ToSetLast<T>(s: seq<T>)
    requires s != []
    ensures ToSet(s) == ToSet(s[..|s| - 1]) + {s[|s| - 1]}
  {
    assert s == s[..|s| - 1] + [s[|s| - 1]];
  }

  lemma {:induction false} NoDupSize<T>(s: seq<T>)
    requires NoDup(s)
    ensures |ToSet(s)| == |s|
  {
    if s == [] {
      assert ToSet(s) == {};
    } else {
      ToSetLast(s);
      NoDupSize(s[..|s| - 1]);
    }
  }

  lemma {:induction false} SubsetSize<T>(s: set<T>, u: set<T>)
    requires s <= u
    ensures |s| <= |u|
  {
    if s != {} {
      var x :| x in s;
      SubsetSize(s - {x}, u - {x});
    }
  }

  lemma NoDupBound<T>(s: seq<T>, u: set<T>)
    requires NoDup(s) && ToSet(s) <= u
    ensures |s| <= |u|
  {
    NoDupSize(s);
    SubsetSize(ToSet(s), u);
  }

  lemma NoDupConcat<T>(s: seq<T>, t: seq<T>)
    requires NoDup(s) && NoDup(t)
    requires forall x :: x in t ==> x !in s
    ensures NoDup(s + t)
  {
    forall i, j | 0 <= i < j < |s + t| ensures (s + t)[i] != (s + t)[j] {
      if i < |s| <= j {
        assert t[j - |s|] in t;
      }
    }
  }

  // ------------------------------------------------------- cycles and supported sets

  /** A walk of any length that stays in a supported set and ends where we please. */
  lemma {:induction false} WalkBackward<T(!new)>(pairs: seq<(T, T)>, s: set<T>, x: T, n: nat) returns (w: seq<T>)
    requires Supported(pairs, s) && x in s
    ensures Walk(pairs, w) && |w| == n + 1 && w[n] == x && ToSet(w) <= s
  {
    if n == 0 {
      w := [x];
    } else {
      assert HasParentIn(pairs, s, x);
      var p :| p in s && Edge(pairs, p, x);
      var v := WalkBackward(pairs, s, p, n - 1);
      w := v + [x];
      assert ToSet(w) == ToSet(v) + {x};
    }
  }

  /** In a finite supported set, every element lies below a cycle. */
  lemma SupportedBelowCycle<T(!new)>(pairs: seq<(T, T)>, s: set<T>, x: T)
    requires Supported(pairs, s) && x in s
    ensures BelowCycle(pairs, x)
  {
    var w := WalkBackward(pairs, s, x, |s|);
    if NoDup(w) {
      NoDupBound(w, s);
      assert false;
    }
    var i, j :| 0 <= i < j < |w| && w[i] == w[j];
    assert Lasso(pairs, w[i..], j - i, x);
  }

  /** A list that puts parents first contains nothing that lies below a cycle. */
  lemma ParentsFirstAvoidsCycles<T(!new)>(pairs: seq<(T, T)>, s: seq<T>, x: T)
    requires ParentsFirst(pairs, s) && x in s
    ensures !BelowCycle(pairs, x)
  {
    if BelowCycle(pairs, x) {
      var w, k :| Lasso(pairs, w, k, x);
      var m :| 0 <= m < |s| && s[m] == x;
      var i := TraceBack(pairs, s, w, m, |w| - 1 - k);
      SinkForever(pairs, s, w[..k + 1], i);
    }
  }

  /** Following a walk n steps back from s[m] leads to an element of s, no later than s[m]. */
  lemma {:induction false} TraceBack<T(!new)>(pairs: seq<(T, T)>, s: seq<T>, w: seq<T>, m: nat, n: nat)
    returns (i: nat)
    requires ParentsFirst(pairs, s) && Walk(pairs, w) && n < |w|
    requires m < |s| && s[m] == w[|w| - 1]
    ensures i + n <= m && s[i] == w[|w| - 1 - n]
  {
    if n == 0 {
      i := m;
    } else {
      var j := TraceBack(pairs, s, w, m, n - 1);
      assert Edge(pairs, w[|w| - 1 - n], w[|w| - n]);
      assert w[|w| - 1 - n] in s[..j];
      i :| 0 <= i < j && s[i] == w[|w| - 1 - n];
    }
  }

  /** No closed walk can end at an element of a list that puts parents first. */
  lemma {:induction false} SinkForever<T(!new)>(pairs: seq<(T, T)>, s: seq<T>, w: seq<T>, m: nat)
    requires ParentsFirst(pairs, s) && Walk(pairs, w) && |w| > 1 && w[0] == w[|w| - 1]
    requires m < |s| && s[m] == w[0]
    ensures false
    decreases m
  {
    var i := TraceBack(pairs, s, w, m, |w| - 1);
    SinkForever(pairs, s, w, i);
  }

  /** A pair list is acyclic exactly when nothing lies below a cycle. */
  lemma AcyclicIffNothingBelowCycle<T(!new)>(pairs: seq<(T, T)>)
    ensures Acyclic(pairs) <==> forall x :: x in Elements(pairs) ==> !BelowCycle(pairs, x)
  {
    if !Acyclic(pairs) {
      var w :| Walk(pairs, w) && |w| > 1 && w[0] == w[|w| - 1];
      assert Lasso(pairs, w, |w| - 1, w[0]);
      assert Edge(pairs, w[0], w[1]);
      EdgeInElements(pairs, w[0], w[1]);
    }
    forall x | BelowCycle(pairs, x) ensures !Acyclic(pairs) {
      var w, k :| Lasso(pairs, w, k, x);
      assert Walk(pairs, w[..k + 1]);
    }
  }

  // ------------------------------------------------------------------------ chains

  lemma ChainShortens<T(!new)>(pairs: seq<(T, T)>, x: T, m: nat, n: nat)
    requires m <= n && HasChain(pairs, x, n)
    ensures HasChain(pairs, x, m)
  {
    var w :| Walk(pairs, w) && |w| == n + 1 && w[n] == x;
    assert Walk(pairs, w[n - m..]);
  }

  /** x has a chain of n + 1 edges exactly when some parent has a chain of n edges. */
  lemma ChainStep<T(!new)>(pairs: seq<(T, T)>, x: T, n: nat)
    ensures HasChain(pairs, x, n + 1) <==> exists p :: Edge(pairs, p, x) && HasChain(pairs, p, n)
  {
    if HasChain(pairs, x, n + 1) {
      var w :| Walk(pairs, w) && |w| == n + 2 && w[n + 1] == x;
      assert Walk(pairs, w[..n + 1]);
      assert Edge(pairs, w[n], x);
      assert HasChain(pairs, w[n], n);
    }
    if p :| Edge(pairs, p, x) && HasChain(pairs, p, n) {
      var w :| Walk(pairs, w) && |w| == n + 1 && w[n] == p;
      assert Walk(pairs, w + [x]);
    }
  }
}
