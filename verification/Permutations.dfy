/** All permutations of a list (bindings/python/rad_util.py, permutations). */
module Permutations {
  import opened PairGraph
  import opened Seqs

  function Factorial(n: nat): nat {
    if n == 0 then 1 else n * Factorial(n - 1)
  }

  /** The list with x put in at position i. */
  function Insert<T>(s: seq<T>, i: nat, x: T): seq<T>
    requires i <= |s|
  {
    s[..i] + [x] + s[i..]
  }

  /** x put in at each of the first n positions. */
  function Insertions<T>(s: seq<T>, x: T, n: nat): seq<seq<T>>
    requires n <= |s| + 1
  {
    if n == 0 then [] else Insertions(s, x, n - 1) + [Insert(s, n - 1, x)]
  }

  function InsertEverywhere<T>(subs: seq<seq<T>>, x: T): seq<seq<T>> {
    if subs == [] then []
    else InsertEverywhere(subs[..|subs| - 1], x) + Insertions(subs[|subs| - 1], x, |subs[|subs| - 1]| + 1)
  }

  ghost predicate Rearranges<T>(p: seq<T>, l: seq<T>) {
    multiset(p) == multiset(l)
  }

  /** Every rearrangement occurs and nothing else does; there are n! entries, without repetition if l has none. */
  ghost predicate AllPermutations<T(!new)>(l: seq<T>, out: seq<seq<T>>) {
    && |out| == Factorial(|l|)
    && (forall p :: p in out <==> Rearranges(p, l))
    && (NoDup(l) ==> NoDup(out))
  }

  lemma {:induction false} InInsertions<T>(s: seq<T>, x: T, n: nat, p: seq<T>)
    requires n <= |s| + 1
    ensures |Insertions(s, x, n)| == n
    ensures p in Insertions(s, x, n) <==> exists i :: 0 <= i < n && p == Insert(s, i, x)
  {
    if n > 0 {
      InInsertions(s, x, n - 1, p);
    }
  }

  lemma {:induction false} IntoEverywhere<T>(subs: seq<seq<T>>, x: T, k: nat, i: nat)
    requires k < |subs| && i <= |subs[k]|
    ensures Insert(subs[k], i, x) in InsertEverywhere(subs, x)
  {
    var last := subs[|subs| - 1];
    if k < |subs| - 1 {
      IntoEverywhere(subs[..|subs| - 1], x, k, i);
    } else {
      InInsertions(last, x, |last| + 1, Insert(last, i, x));
    }
  }

  lemma {:induction false} FromEverywhere<T>(subs: seq<seq<T>>, x: T, p: seq<T>) returns (k: nat, i: nat)
    requires p in InsertEverywhere(subs, x)
    ensures k < |subs| && i <= |subs[k]| && p == Insert(subs[k], i, x)
  {
    var init, last := subs[..|subs| - 1], subs[|subs| - 1];
    if p in InsertEverywhere(init, x) {
      k, i := FromEverywhere(init, x, p);
    } else {
      InInsertions(last, x, |last| + 1, p);
      k := |subs| - 1;
      i :| 0 <= i < |last| + 1 && p == Insert(last, i, x);
    }
  }

  lemma {:induction false} EverywhereSize<T>(subs: seq<seq<T>>, x: T, n: nat)
    requires forall k :: 0 <= k < |subs| ==> |subs[k]| == n
    ensures |InsertEverywhere(subs, x)| == |subs| * (n + 1)
  {
    if subs != [] {
      EverywhereSize(subs[..|subs| - 1], x, n);
      InInsertions(subs[|subs| - 1], x, n + 1, []);
      assert (|subs| - 1) * (n + 1) + (n + 1) == |subs| * (n + 1);
    }
  }

  lemma InsertRearranges<T>(s: seq<T>, i: nat, x: T)
    requires i <= |s|
    ensures multiset(Insert(s, i, x)) == multiset(s) + multiset{x}
  {
    assert s == s[..i] + s[i..];
  }

  /** Where x is not in the list, the insertion can be undone. */
  lemma InsertInjective<T>(s: seq<T>, i: nat, t: seq<T>, j: nat, x: T)
    requires i <= |s| && j <= |t| && x !in s && x !in t
    requires Insert(s, i, x) == Insert(t, j, x)
    ensures i == j && s == t
  {
    var p := Insert(s, i, x);
    assert p[i] == x && p[j] == x;
    assert s == p[..i] + p[i + 1..] && t == p[..j] + p[j + 1..];
  }

  /** What is left of p after taking out position i. */
  lemma TakeOut<T>(p: seq<T>, i: nat)
    requires i < |p|
    ensures Insert(p[..i] + p[i + 1..], i, p[i]) == p
    ensures multiset(p[..i] + p[i + 1..]) + multiset{p[i]} == multiset(p)
  {
    var s := p[..i] + p[i + 1..];
    assert s[..i] == p[..i] && s[i..] == p[i + 1..];
    assert Insert(s, i, p[i]) == p;
    InsertRearranges(s, i, p[i]);
  }

  lemma MembersOfRearrangement<T>(p: seq<T>, l: seq<T>, x: T)
    requires Rearranges(p, l)
    ensures x in p <==> x in l
  {
    assert x in p <==> x in multiset(p);
  }

  lemma HeadAndTail<T>(l: seq<T>)
    requires l != []
    ensures multiset(l) == multiset(l[1..]) + multiset{l[0]}
  {
    assert l == [l[0]] + l[1..];
  }

  lemma EverywhereRearranges<T(!new)>(l: seq<T>, subs: seq<seq<T>>, p: seq<T>)
    requires l != [] && p in InsertEverywhere(subs, l[0])
    requires forall q :: q in subs ==> Rearranges(q, l[1..])
    ensures Rearranges(p, l)
  {
    HeadAndTail(l);
    var k, i := FromEverywhere(subs, l[0], p);
    assert subs[k] in subs;
    InsertRearranges(subs[k], i, l[0]);
  }

  lemma RearrangementIsThere<T(!new)>(l: seq<T>, subs: seq<seq<T>>, p: seq<T>)
    requires l != [] && Rearranges(p, l)
    requires forall q :: Rearranges(q, l[1..]) ==> q in subs
    ensures p in InsertEverywhere(subs, l[0])
  {
    HeadAndTail(l);
    MembersOfRearrangement(p, l, l[0]);
    var i :| 0 <= i < |p| && p[i] == l[0];
    var q := p[..i] + p[i + 1..];
    TakeOut(p, i);
    assert Rearranges(q, l[1..]) by {
      assert multiset(q) + multiset{l[0]} == multiset(l[1..]) + multiset{l[0]};
      Cancel(multiset(q), multiset(l[1..]), l[0]);
    }
    var k :| 0 <= k < |subs| && subs[k] == q;
    IntoEverywhere(subs, l[0], k, i);
  }

  lemma Cancel<T>(a: multiset<T>, b: multiset<T>, x: T)
    requires a + multiset{x} == b + multiset{x}
    ensures a == b
  {
    assert a == a + multiset{x} - multiset{x};
    assert b == b + multiset{x} - multiset{x};
  }

  lemma {:induction false} InsertionsDistinct<T>(s: seq<T>, x: T, n: nat)
    requires n <= |s| + 1 && x !in s
    ensures NoDup(Insertions(s, x, n))
  {
    if n > 0 {
      InsertionsDistinct(s, x, n - 1);
      var p := Insert(s, n - 1, x);
      InInsertions(s, x, n - 1, p);
      if i :| 0 <= i < n - 1 && p == Insert(s, i, x) {
        InsertInjective(s, i, s, n - 1, x);
      }
      NoDupConcat(Insertions(s, x, n - 1), [p]);
    }
  }

  lemma {:induction false} EverywhereDistinct<T>(subs: seq<seq<T>>, x: T)
    requires NoDup(subs) && forall k :: 0 <= k < |subs| ==> x !in subs[k]
    ensures NoDup(InsertEverywhere(subs, x))
  {
    if subs != [] {
      var init, last := subs[..|subs| - 1], subs[|subs| - 1];
      EverywhereDistinct(init, x);
      InsertionsDistinct(last, x, |last| + 1);
      forall p | p in Insertions(last, x, |last| + 1) ensures p !in InsertEverywhere(init, x) {
        InInsertions(last, x, |last| + 1, p);
        if p in InsertEverywhere(init, x) {
          var i :| 0 <= i < |last| + 1 && p == Insert(last, i, x);
          var k, j := FromEverywhere(init, x, p);
          InsertInjective(last, i, init[k], j, x);
        }
      }
      NoDupConcat(InsertEverywhere(init, x), Insertions(last, x, |last| + 1));
    }
  }

  /** Putting the first item in everywhere turns the permutations of the rest into those of the whole. */
  lemma OneMoreItem<T(!new)>(l: seq<T>, subs: seq<seq<T>>)
    requires l != [] && AllPermutations(l[1..], subs)
    ensures AllPermutations(l, InsertEverywhere(subs, l[0]))
  {
    forall p ensures p in InsertEverywhere(subs, l[0]) <==> Rearranges(p, l) {
      if Rearranges(p, l) {
        RearrangementIsThere(l, subs, p);
      }
      if p in InsertEverywhere(subs, l[0]) {
        EverywhereRearranges(l, subs, p);
      }
    }
    forall k | 0 <= k < |subs| ensures |subs[k]| == |l| - 1 && (l[0] in subs[k] <==> l[0] in l[1..]) {
      assert subs[k] in subs;
      assert |multiset(subs[k])| == |multiset(l[1..])|;
      MembersOfRearrangement(subs[k], l[1..], l[0]);
    }
    EverywhereSize(subs, l[0], |l| - 1);
    if NoDup(l) {
      assert forall i, j :: 0 <= i < j < |l[1..]| ==> l[1..][i] != l[1..][j];
      assert l[0] !in l[1..];
      EverywhereDistinct(subs, l[0]);
    }
  }

  method Permutations<T(!new)>(inputList: seq<T>) returns (outLists: seq<seq<T>>)
    ensures AllPermutations(inputList, outLists)
  {
    outLists := [];
    if |inputList| > 1 {
      var item := inputList[0];
      var subLists := Permutations(inputList[1..]);
      for k := 0 to |subLists|
        invariant outLists == InsertEverywhere(subLists[..k], item)
      {
        var subList := subLists[k];
        assert subList in subLists;
        assert |multiset(subList)| == |multiset(inputList[1..])|;
        ghost var before := outLists;
        for i := 0 to |inputList|
          invariant outLists == before + Insertions(subList, item, i)
        {
          var newList := subList[..i] + [item] + subList[i..];
          Assoc(before, Insertions(subList, item, i), [newList]);
          outLists := outLists + [newList];
        }
        assert subLists[..k + 1][..k] == subLists[..k];
      }
      assert subLists[..|subLists|] == subLists;
      OneMoreItem(inputList, subLists);
    } else {
      outLists := [inputList];
      ShortList(inputList);
    }
  }

  lemma ShortList<T(!new)>(l: seq<T>)
    requires |l| <= 1
    ensures AllPermutations(l, [l])
  {
    forall p ensures p in [l] <==> Rearranges(p, l) {
      if Rearranges(p, l) {
        assert |multiset(p)| == |multiset(l)|;
        if |l| == 1 {
          MembersOfRearrangement(p, l, l[0]);
        }
        assert p == l;
      }
    }
    assert Factorial(0) == 1;
  }
}
