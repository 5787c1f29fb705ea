/**
  Dependency sorting (bindings/python/topsort.py): Kahn's algorithm with a worklist
  that grows while it is walked, and the variant that reports one level at a time.
*/
module Topsort {
  import opened PairGraph
  import opened Seqs

  datatype SortResult<T> =
    | Sorted(order: seq<T>)
    | CycleError(answer: seq<T>, numParents: map<T, int>, children: map<T, seq<T>>)

  datatype LevelsEnd<T> =
    | StopIteration
    | LevelsCycleError(numParents: map<T, int>, children: map<T, seq<T>>)

  // --------------------------------------------------------------- the two dictionaries

  /** How many of the pairs give x a parent outside `done`. */
  ghost function Live<T>(pairs: seq<(T, T)>, done: set<T>, x: T): nat {
    if pairs == [] then 0 else
      var e := pairs[|pairs| - 1];
      Live(pairs[..|pairs| - 1], done, x) + if e.1 == x && e.0 !in done then 1 else 0
  }

  /** The children of p, one for each pair, in the order of the pairs. */
  ghost function ChildrenOf<T>(pairs: seq<(T, T)>, p: T): seq<T> {
    if pairs == [] then [] else
      var e := pairs[|pairs| - 1];
      ChildrenOf(pairs[..|pairs| - 1], p) + if e.0 == p then [e.1] else []
  }

  ghost function ListOf<T>(children: map<T, seq<T>>, p: T): seq<T> {
    if p in children then children[p] else []
  }

  /** The counts are right for the nodes that are left once `done` has been taken out. */
  ghost predicate Counts<T(!new)>(pairs: seq<(T, T)>, nodes: set<T>, done: set<T>, numParents: map<T, int>) {
    && numParents.Keys == nodes - done
    && forall x :: x in numParents ==> numParents[x] == Live(pairs, done, x)
  }

  /** The lists of children are those of the pairs, and nothing is listed for `done`. */
  ghost predicate Lists<T(!new)>(pairs: seq<(T, T)>, done: set<T>, children: map<T, seq<T>>) {
    forall p :: ListOf(children, p) == if p in done then [] else ChildrenOf(pairs, p)
  }

  /** An element without children is not a key of the dictionary of children. */
  ghost predicate NoEmptyList<T>(children: map<T, seq<T>>) {
    forall p :: p in children ==> children[p] != []
  }

  /** Then the keys are exactly the parents that are left. */
  lemma KeysAreParents<T(!new)>(pairs: seq<(T, T)>, done: set<T>, children: map<T, seq<T>>, p: T)
    requires Lists(pairs, done, children) && NoEmptyList(children)
    ensures p in children <==> p !in done && ChildrenOf(pairs, p) != []
    ensures p in children ==> children[p] == ChildrenOf(pairs, p)
  {
    assert ListOf(children, p) == if p in done then [] else ChildrenOf(pairs, p);
  }

  ghost predicate ClosedUp<T(!new)>(pairs: seq<(T, T)>, s: set<T>) {
    forall p, c :: Edge(pairs, p, c) && c in s ==> p in s
  }

  lemma {:induction false} LivePositive<T(!new)>(pairs: seq<(T, T)>, done: set<T>, x: T)
    ensures Live(pairs, done, x) > 0 <==> exists p :: Edge(pairs, p, x) && p !in done
  {
    if pairs != [] {
      var init, e := pairs[..|pairs| - 1], pairs[|pairs| - 1];
      assert pairs == init + [e];
      LivePositive(init, done, x);
      assert forall p :: Edge(pairs, p, x) <==> Edge(init, p, x) || e == (p, x);
    }
  }

  /** Taking p out lowers the count of x by the number of times x is listed as p's child. */
  lemma {:induction false} LiveStep<T>(pairs: seq<(T, T)>, done: set<T>, p: T, x: T)
    requires p !in done
    ensures Live(pairs, done, x) == Live(pairs, done + {p}, x) + multiset(ChildrenOf(pairs, p))[x]
  {
    if pairs != [] {
      LiveStep(pairs[..|pairs| - 1], done, p, x);
    }
  }

  lemma {:induction false} ChildrenAreEdges<T>(pairs: seq<(T, T)>, p: T, c: T)
    ensures c in ChildrenOf(pairs, p) <==> Edge(pairs, p, c)
  {
    if pairs != [] {
      var init, e := pairs[..|pairs| - 1], pairs[|pairs| - 1];
      assert pairs == init + [e];
      ChildrenAreEdges(init, p, c);
    }
  }

  /** One more pair: what the counts must become. */
  lemma CountStep<T(!new)>(pairs: seq<(T, T)>, e: (T, T), before: map<T, int>, after: map<T, int>)
    requires pairs != [] && e == pairs[|pairs| - 1]
    requires Counts(pairs[..|pairs| - 1], Elements(pairs[..|pairs| - 1]), {}, before)
    requires after.Keys == before.Keys + {e.0, e.1}
    requires forall x :: x in after ==>
      after[x] == (if x in before then before[x] else 0) + if x == e.1 then 1 else 0
    ensures Counts(pairs, Elements(pairs), {}, after)
  {
    forall x | x in after ensures after[x] == Live(pairs, {}, x) {
      if x !in before {
        NoLiveOutside(pairs[..|pairs| - 1], x);
      }
    }
  }

  lemma ListStep<T(!new)>(pairs: seq<(T, T)>, e: (T, T), before: map<T, seq<T>>, after: map<T, seq<T>>)
    requires pairs != [] && e == pairs[|pairs| - 1]
    requires Lists(pairs[..|pairs| - 1], {}, before)
    requires after == before[e.0 := ListOf(before, e.0) + [e.1]]
    ensures Lists(pairs, {}, after)
  {
    forall p ensures ListOf(after, p) == ChildrenOf(pairs, p) {
      assert ListOf(before, p) == ChildrenOf(pairs[..|pairs| - 1], p);
    }
  }

  /** Lines 81-87 for one pair. */
  method CountPair<T(==, !new)>(ghost pairs: seq<(T, T)>, parent: T, child: T, numParents: map<T, int>)
    returns (counts: map<T, int>)
    requires pairs != [] && (parent, child) == pairs[|pairs| - 1]
    requires Counts(pairs[..|pairs| - 1], Elements(pairs[..|pairs| - 1]), {}, numParents)
    ensures Counts(pairs, Elements(pairs), {}, counts)
  {
    counts := numParents;
    if parent !in counts {
      counts := counts[parent := 0];
    }
    if child !in counts {
      counts := counts[child := 0];
    }
    counts := counts[child := counts[child] + 1];
    CountStep(pairs, (parent, child), numParents, counts);
  }

  /** Lines 77-90, and again 157-170: count the parents and list the children. */
  method Build<T(==, !new)>(pairs: seq<(T, T)>) returns (numParents: map<T, int>, children: map<T, seq<T>>)
    ensures Counts(pairs, Elements(pairs), {}, numParents)
    ensures Lists(pairs, {}, children) && NoEmptyList(children)
  {
    numParents, children := map[], map[];
    for k := 0 to |pairs|
      invariant Counts(pairs[..k], Elements(pairs[..k]), {}, numParents)
      invariant Lists(pairs[..k], {}, children) && NoEmptyList(children)
    {
      var (parent, child) := pairs[k];
      assert pairs[..k + 1][..k] == pairs[..k];
      numParents := CountPair(pairs[..k + 1], parent, child, numParents);
      var list := if parent in children then children[parent] else [];
      ListStep(pairs[..k + 1], (parent, child), children, children[parent := list + [child]]);
      children := children[parent := list + [child]];
    }
    assert pairs[..|pairs|] == pairs;
  }

  lemma NoLiveOutside<T(!new)>(pairs: seq<(T, T)>, x: T)
    requires x !in Elements(pairs)
    ensures Live(pairs, {}, x) == 0
  {
    LivePositive(pairs, {}, x);
    if p :| Edge(pairs, p, x) && p !in {} {
      EdgeInElements(pairs, p, x);
    }
  }

  /** The keys whose count is zero, in whatever order the dictionary gives them. */
  method ZeroKeys<T(==)>(numParents: map<T, int>) returns (zeros: seq<T>)
    ensures NoDup(zeros)
    ensures forall x :: x in zeros <==> x in numParents && numParents[x] == 0
  {
    zeros := [];
    var keys := numParents.Keys;
    while keys != {}
      invariant keys <= numParents.Keys
      invariant NoDup(zeros)
      invariant forall x :: x in zeros <==> x in numParents && x !in keys && numParents[x] == 0
    {
      var x :| x in keys;
      keys := keys - {x};
      if numParents[x] == 0 {
        zeros := zeros + [x];
      }
    }
  }

  // ------------------------------------------------------------------------- topsort

  /** Lines 100-103: count each child down once for each time it is listed; report it on reaching zero. */
  method KnockDown<T(==)>(numParents: map<T, int>, list: seq<T>) returns (counts: map<T, int>, ready: seq<T>)
    requires forall c :: c in list ==> c in numParents
    requires forall x :: x in numParents ==> multiset(list)[x] <= numParents[x]
    ensures counts.Keys == numParents.Keys
    ensures forall x :: x in numParents ==> counts[x] == numParents[x] - multiset(list)[x]
    ensures NoDup(ready)
    ensures forall x :: x in ready <==> x in numParents && numParents[x] > 0 && counts[x] == 0
  {
    counts, ready := numParents, [];
    for j := 0 to |list|
      invariant counts.Keys == numParents.Keys
      invariant forall x :: x in numParents ==>
        counts[x] == numParents[x] - multiset(list)[x] + multiset(list[j..])[x]
      invariant NoDup(ready)
      invariant forall x :: x in ready <==> x in numParents && numParents[x] > 0 && counts[x] == 0
    {
      var child := list[j];
      TailCounts(list, j);
      counts := counts[child := counts[child] - 1];
      if counts[child] == 0 {
        ready := ready + [child];
      }
    }
  }

  lemma TailCounts<T>(list: seq<T>, j: nat)
    requires j < |list|
    ensures forall x :: multiset(list[j..])[x] == multiset(list[j + 1..])[x] + if x == list[j] then 1 else 0
  {
    assert list[j..] == [list[j]] + list[j + 1..];
  }

  /** Once the parents of p are all done, each child of p is still counted, and often enough. */
  lemma ReadyToAdvance<T(!new)>(pairs: seq<(T, T)>, nodes: set<T>, done: set<T>, p: T, numParents: map<T, int>)
    requires Elements(pairs) <= nodes && Counts(pairs, nodes, done, numParents) && ClosedUp(pairs, done)
    requires p in numParents && numParents[p] == 0
    ensures ClosedUp(pairs, done + {p})
    ensures forall c :: c in ChildrenOf(pairs, p) ==> c in numParents - {p}
    ensures forall x :: x in numParents ==>
      Live(pairs, done + {p}, x) == numParents[x] - multiset(ChildrenOf(pairs, p))[x]
  {
    LivePositive(pairs, done, p);
    forall c | c in ChildrenOf(pairs, p) ensures c in numParents - {p} {
      ChildrenAreEdges(pairs, p, c);
      EdgeInElements(pairs, p, c);
    }
    forall x | x in numParents
      ensures Live(pairs, done + {p}, x) == numParents[x] - multiset(ChildrenOf(pairs, p))[x]
    {
      LiveStep(pairs, done, p, x);
    }
  }

  lemma DropList<T(!new)>(pairs: seq<(T, T)>, done: set<T>, p: T, children: map<T, seq<T>>)
    requires Lists(pairs, done, children)
    ensures Lists(pairs, done + {p}, children - {p})
  {
    forall q ensures ListOf(children - {p}, q) == if q in done + {p} then [] else ChildrenOf(pairs, q) {
      assert q == p || ListOf(children - {p}, q) == ListOf(children, q);
    }
  }

  /** When no count is zero any more, each element left over has a parent that is left over. */
  lemma LeftoverIsSupported<T(!new)>(pairs: seq<(T, T)>, nodes: set<T>, done: set<T>, numParents: map<T, int>)
    requires Elements(pairs) <= nodes && Counts(pairs, nodes, done, numParents)
    requires forall x :: x in numParents ==> numParents[x] != 0
    ensures Supported(pairs, numParents.Keys) && numParents.Keys <= Elements(pairs)
  {
    forall x | x in numParents.Keys ensures HasParentIn(pairs, numParents.Keys, x) && x in Elements(pairs) {
      LivePositive(pairs, done, x);
      var p :| Edge(pairs, p, x) && p !in done;
      EdgeInElements(pairs, p, x);
    }
  }

  /** If what is left over is supported and the rest puts parents first, it is what lies below a cycle. */
  lemma SplitByCycles<T(!new)>(pairs: seq<(T, T)>, left: set<T>, answer: seq<T>)
    requires Supported(pairs, left) && ParentsFirst(pairs, answer)
    ensures forall x :: x in answer ==> !BelowCycle(pairs, x)
    ensures forall x :: x in left ==> BelowCycle(pairs, x)
  {
    forall x | x in answer ensures !BelowCycle(pairs, x) {
      ParentsFirstAvoidsCycles(pairs, answer, x);
    }
    forall x | x in left ensures BelowCycle(pairs, x) {
      SupportedBelowCycle(pairs, left, x);
    }
  }

  /** When no count is zero any more, what is left is exactly what lies below a cycle. */
  lemma LeftoverIsBelowCycle<T(!new)>(pairs: seq<(T, T)>, nodes: set<T>, answer: seq<T>, numParents: map<T, int>)
    requires Elements(pairs) <= nodes && Counts(pairs, nodes, ToSet(answer), numParents)
    requires ParentsFirst(pairs, answer)
    requires forall x :: x in numParents ==> numParents[x] != 0
    ensures Supported(pairs, numParents.Keys)
    ensures forall x :: x in nodes ==> (x in answer <==> !BelowCycle(pairs, x))
    ensures Acyclic(pairs) <==> numParents.Keys == {}
  {
    LeftoverIsSupported(pairs, nodes, ToSet(answer), numParents);
    SplitByCycles(pairs, numParents.Keys, answer);
    AcyclicIffNothingBelowCycle(pairs);
    forall x | x in nodes ensures x in answer <==> !BelowCycle(pairs, x) {
      assert x in ToSet(answer) || x in numParents.Keys;
    }
    if numParents.Keys == {} {
      forall x | x in Elements(pairs) ensures !BelowCycle(pairs, x) {
        assert x in nodes && x !in numParents.Keys;
      }
    } else {
      var x :| x in numParents.Keys;
      assert BelowCycle(pairs, x);
    }
  }

  /** The worklist holds what is done followed by what has no parent left, parents first. */
  ghost predicate Worklist<T(!new)>(pairs: seq<(T, T)>, nodes: set<T>, done: set<T>, numParents: map<T, int>,
                                    answer: seq<T>) {
    && NoDup(answer) && ToSet(answer) <= nodes && done <= ToSet(answer)
    && (forall x :: x in answer && x !in done <==> x in numParents && numParents[x] == 0)
    && ParentsFirst(pairs, answer)
    && ClosedUp(pairs, done)
  }

  lemma RootsHaveNoParents<T(!new)>(pairs: seq<(T, T)>, nodes: set<T>, numParents: map<T, int>, answer: seq<T>)
    requires Counts(pairs, nodes, {}, numParents) && NoDup(answer)
    requires forall x :: x in answer <==> x in numParents && numParents[x] == 0
    ensures Worklist(pairs, nodes, {}, numParents, answer)
  {
    forall k, p | 0 <= k < |answer| ensures !Edge(pairs, p, answer[k]) {
      assert answer[k] in answer;
      LivePositive(pairs, {}, answer[k]);
    }
  }

  /** Taking p out and appending what became ready keeps the worklist in order. */
  lemma AdvanceKeepsWorklist<T(!new)>(pairs: seq<(T, T)>, nodes: set<T>, done: set<T>, p: T, before: map<T, int>,
                                      answer: seq<T>, after: map<T, int>, ready: seq<T>)
    requires Elements(pairs) <= nodes && Counts(pairs, nodes, done, before)
    requires Worklist(pairs, nodes, done, before, answer)
    requires p in answer && p !in done
    requires Counts(pairs, nodes, done + {p}, after)
    requires NoDup(ready)
    requires forall x :: x in ready <==> x in after && before[x] > 0 && after[x] == 0
    ensures Worklist(pairs, nodes, done + {p}, after, answer + ready)
  {
    ReadyToAdvance(pairs, nodes, done, p, before);
    var longer := answer + ready;
    NoDupConcat(answer, ready);
    forall k, q | 0 <= k < |longer| && Edge(pairs, q, longer[k]) ensures q in longer[..k] {
      if k < |answer| {
        assert longer[..k] == answer[..k];
      } else {
        assert longer[k] in ready;
        LivePositive(pairs, done + {p}, longer[k]);
        assert q in answer && longer[..k][..|answer|] == answer;
      }
    }
  }

  lemma PrefixGrows<T>(s: seq<T>, t: seq<T>, i: nat)
    requires i < |s|
    ensures ToSet((s + t)[..i + 1]) == ToSet(s[..i]) + {s[i]}
  {
    assert (s + t)[..i + 1] == s[..i] + [s[i]];
  }

  /** Lines 98-106: the body of the loop over the growing answer. */
  method TakeOut<T(==, !new)>(ghost pairs: seq<(T, T)>, ghost nodes: set<T>, ghost done: set<T>, parent: T,
                              numParents: map<T, int>, children: map<T, seq<T>>)
    returns (counts: map<T, int>, lists: map<T, seq<T>>, ready: seq<T>)
    requires Elements(pairs) <= nodes && Counts(pairs, nodes, done, numParents) && Lists(pairs, done, children)
    requires ClosedUp(pairs, done)
    requires parent in numParents && numParents[parent] == 0
    ensures Counts(pairs, nodes, done + {parent}, counts) && Lists(pairs, done + {parent}, lists)
    ensures ClosedUp(pairs, done + {parent}) && lists == children - {parent}
    ensures NoDup(ready)
    ensures forall x :: x in ready <==> x in counts && numParents[x] > 0 && counts[x] == 0
  {
    ReadyToAdvance(pairs, nodes, done, parent, numParents);
    assert ListOf(children, parent) == ChildrenOf(pairs, parent);
    var list := if parent in children then children[parent] else [];
    counts, ready := KnockDown(numParents - {parent}, list);
    lists := children - {parent};
    DropList(pairs, done, parent, children);
  }

  /** The state of the loop over the growing answer when its first i elements have been taken out. */
  ghost predicate Sorting<T(!new)>(pairs: seq<(T, T)>, answer: seq<T>, i: nat, numParents: map<T, int>,
                                   children: map<T, seq<T>>) {
    && i <= |answer| <= |Elements(pairs)|
    && Counts(pairs, Elements(pairs), ToSet(answer[..i]), numParents)
    && Lists(pairs, ToSet(answer[..i]), children) && NoEmptyList(children)
    && Worklist(pairs, Elements(pairs), ToSet(answer[..i]), numParents, answer)
  }

  method Advance<T(==, !new)>(ghost pairs: seq<(T, T)>, answer: seq<T>, i: nat, numParents: map<T, int>,
                              children: map<T, seq<T>>)
    returns (longer: seq<T>, counts: map<T, int>, lists: map<T, seq<T>>)
    requires Sorting(pairs, answer, i, numParents, children) && i < |answer|
    ensures Sorting(pairs, longer, i + 1, counts, lists)
  {
    ghost var nodes, done := Elements(pairs), ToSet(answer[..i]);
    var parent := answer[i];
    assert parent in answer && parent !in answer[..i];
    var ready;
    counts, lists, ready := TakeOut(pairs, nodes, done, parent, numParents, children);
    AdvanceKeepsWorklist(pairs, nodes, done, parent, numParents, answer, counts, ready);
    PrefixGrows(answer, ready, i);
    longer := answer + ready;
    NoDupBound(longer, nodes);
  }

  /** What the sort returns, or the details with which it raises. */
  ghost predicate SortAnswer<T(!new)>(pairs: seq<(T, T)>, r: SortResult<T>) {
    && (r.Sorted? <==> Acyclic(pairs))
    && (r.Sorted? ==>
        NoDup(r.order) && ToSet(r.order) == Elements(pairs) && ParentsFirst(pairs, r.order))
    && (r.CycleError? ==>
        && NoDup(r.answer) && ParentsFirst(pairs, r.answer)
        && (forall x :: x in r.answer <==> x in Elements(pairs) && !BelowCycle(pairs, x))
        && Counts(pairs, Elements(pairs), ToSet(r.answer), r.numParents)
        && Lists(pairs, ToSet(r.answer), r.children) && NoEmptyList(r.children)
        && Supported(pairs, r.numParents.Keys))
  }

  lemma SortingStarts<T(!new)>(pairs: seq<(T, T)>, roots: seq<T>, numParents: map<T, int>, children: map<T, seq<T>>)
    requires Counts(pairs, Elements(pairs), {}, numParents) && Lists(pairs, {}, children) && NoEmptyList(children)
    requires NoDup(roots) && forall x :: x in roots <==> x in numParents && numParents[x] == 0
    ensures Sorting(pairs, roots, 0, numParents, children)
  {
    RootsHaveNoParents(pairs, Elements(pairs), numParents, roots);
    NoDupBound(roots, Elements(pairs));
    assert ToSet(roots[..0]) == {};
  }

  method Topsort<T(==, !new)>(pairs: seq<(T, T)>) returns (r: SortResult<T>)
    ensures SortAnswer(pairs, r)
  {
    var numParents, children := Build(pairs);
    var answer := ZeroKeys(numParents);
    SortingStarts(pairs, answer, numParents, children);
    var i := 0;
    while i < |answer|
      invariant Sorting(pairs, answer, i, numParents, children)
      decreases |Elements(pairs)| - i
    {
      answer, numParents, children := Advance(pairs, answer, i, numParents, children);
      i := i + 1;
    }
    if numParents.Keys != {} {
      SortingFails(pairs, answer, numParents, children);
      return CycleError(answer, numParents, children);
    }
    SortingSucceeds(pairs, answer, numParents, children);
    return Sorted(answer);
  }

  /** When the loop has run through the answer, no count is zero. */
  lemma SortingEnds<T(!new)>(pairs: seq<(T, T)>, answer: seq<T>, numParents: map<T, int>, children: map<T, seq<T>>)
    requires Sorting(pairs, answer, |answer|, numParents, children)
    ensures NoDup(answer) && ParentsFirst(pairs, answer) && ToSet(answer) <= Elements(pairs)
    ensures Counts(pairs, Elements(pairs), ToSet(answer), numParents)
    ensures Lists(pairs, ToSet(answer), children) && NoEmptyList(children)
    ensures forall x :: x in numParents ==> numParents[x] != 0
  {
    assert answer[..|answer|] == answer;
    assert forall x :: x in answer ==> x in ToSet(answer);
  }

  lemma SortingFails<T(!new)>(pairs: seq<(T, T)>, answer: seq<T>, numParents: map<T, int>, children: map<T, seq<T>>)
    requires Sorting(pairs, answer, |answer|, numParents, children) && numParents.Keys != {}
    ensures SortAnswer(pairs, CycleError(answer, numParents, children))
  {
    SortingEnds(pairs, answer, numParents, children);
    LeftoverIsBelowCycle(pairs, Elements(pairs), answer, numParents);
    assert forall x :: x in answer ==> x in ToSet(answer);
  }

  lemma SortingSucceeds<T(!new)>(pairs: seq<(T, T)>, answer: seq<T>, numParents: map<T, int>, children: map<T, seq<T>>)
    requires Sorting(pairs, answer, |answer|, numParents, children) && numParents.Keys == {}
    ensures SortAnswer(pairs, Sorted(answer))
  {
    SortingEnds(pairs, answer, numParents, children);
    LeftoverIsBelowCycle(pairs, Elements(pairs), answer, numParents);
    NothingLeft(Elements(pairs), ToSet(answer), numParents);
  }

  lemma NothingLeft<T>(nodes: set<T>, done: set<T>, numParents: map<T, int>)
    requires numParents.Keys == nodes - done && numParents.Keys == {} && done <= nodes
    ensures done == nodes
  {
    forall x | x in nodes ensures x in done {
      assert x in nodes - done <==> x in numParents.Keys;
    }
  }

  // ------------------------------------------------------------------ topsort_levels

  /** The nodes with no chain of k edges above them. */
  ghost predicate Shallow<T(!new)>(pairs: seq<(T, T)>, nodes: set<T>, k: nat, s: set<T>) {
    forall x :: x in s <==> x in nodes && !HasChain(pairs, x, k)
  }

  /** The level of x is k: the longest chain of predecessors of x has k edges. */
  ghost predicate AtLevel<T(!new)>(pairs: seq<(T, T)>, nodes: set<T>, k: nat, x: T) {
    x in nodes && HasChain(pairs, x, k) && !HasChain(pairs, x, k + 1)
  }

  ghost predicate IsLevel<T(!new)>(pairs: seq<(T, T)>, nodes: set<T>, k: nat, level: seq<T>) {
    level != [] && NoDup(level) && forall x :: x in level <==> AtLevel(pairs, nodes, k, x)
  }

  ghost function Flatten<T>(levels: seq<seq<T>>): seq<T> {
    if levels == [] then [] else Flatten(levels[..|levels| - 1]) + levels[|levels| - 1]
  }

  /** Everything has a chain of no edges. */
  lemma NothingShallow<T(!new)>(pairs: seq<(T, T)>, nodes: set<T>)
    ensures Shallow(pairs, nodes, 0, {})
  {
    forall x | x in nodes ensures HasChain(pairs, x, 0) {
      assert Walk(pairs, [x]) && [x][0] == x;
    }
  }

  /** If the nodes without a chain of k edges are done, those with no parent left are at level k. */
  lemma ZeroMeansLevel<T(!new)>(pairs: seq<(T, T)>, nodes: set<T>, done: set<T>, numParents: map<T, int>, k: nat, x: T)
    requires Elements(pairs) <= nodes && Counts(pairs, nodes, done, numParents) && Shallow(pairs, nodes, k, done)
    ensures x in numParents && numParents[x] == 0 <==> AtLevel(pairs, nodes, k, x)
  {
    ChainStep(pairs, x, k);
    if x in numParents {
      LivePositive(pairs, done, x);
      forall p | Edge(pairs, p, x) ensures p in done <==> !HasChain(pairs, p, k) {
        EdgeInElements(pairs, p, x);
      }
    }
  }

  lemma ShallowStep<T(!new)>(pairs: seq<(T, T)>, nodes: set<T>, k: nat, done: set<T>, level: seq<T>)
    requires Shallow(pairs, nodes, k, done) && IsLevel(pairs, nodes, k, level)
    ensures Shallow(pairs, nodes, k + 1, done + ToSet(level))
  {
    forall x ensures x in done + ToSet(level) <==> x in nodes && !HasChain(pairs, x, k + 1) {
      if HasChain(pairs, x, k + 1) {
        ChainShortens(pairs, x, k, k + 1);
      }
    }
  }

  lemma {:induction false} LiveShrinks<T>(pairs: seq<(T, T)>, done: set<T>, more: set<T>, x: T)
    requires done <= more
    ensures Live(pairs, more, x) <= Live(pairs, done, x)
  {
    if pairs != [] {
      LiveShrinks(pairs[..|pairs| - 1], done, more, x);
    }
  }

  /** The state of the loop over a level when its first j elements have been taken out. */
  ghost predicate Removing<T(!new)>(pairs: seq<(T, T)>, nodes: set<T>, done: set<T>, level: seq<T>, j: nat,
                                    numParents: map<T, int>, children: map<T, seq<T>>) {
    && Elements(pairs) <= nodes && j <= |level| && NoDup(level) && ToSet(level) <= nodes - done
    && (forall x :: x in level ==> Live(pairs, done, x) == 0)
    && Counts(pairs, nodes, done + ToSet(level[..j]), numParents)
    && Lists(pairs, done + ToSet(level[..j]), children)
    && ClosedUp(pairs, done + ToSet(level[..j]))
  }

  method RemoveNext<T(==, !new)>(ghost pairs: seq<(T, T)>, ghost nodes: set<T>, ghost done: set<T>, level: seq<T>,
                                 j: nat, numParents: map<T, int>, children: map<T, seq<T>>)
    returns (counts: map<T, int>, lists: map<T, seq<T>>)
    requires Removing(pairs, nodes, done, level, j, numParents, children) && j < |level|
    ensures Removing(pairs, nodes, done, level, j + 1, counts, lists)
    ensures NoEmptyList(children) ==> NoEmptyList(lists)
  {
    ghost var gone := done + ToSet(level[..j]);
    assert level[j] in ToSet(level) && level[j] !in level[..j];
    LiveShrinks(pairs, done, gone, level[j]);
    var ready;
    counts, lists, ready := TakeOut(pairs, nodes, gone, level[j], numParents, children);
    PrefixGrows(level, [], j);
    assert level + [] == level;
    assert done + ToSet(level[..j + 1]) == gone + {level[j]};
  }

  /** Lines 217-224: take a whole level out. */
  method TakeOutLevel<T(==, !new)>(ghost pairs: seq<(T, T)>, ghost nodes: set<T>, ghost done: set<T>, level: seq<T>,
                                   numParents: map<T, int>, children: map<T, seq<T>>)
    returns (counts: map<T, int>, lists: map<T, seq<T>>)
    requires Elements(pairs) <= nodes && Counts(pairs, nodes, done, numParents) && Lists(pairs, done, children)
    requires ClosedUp(pairs, done) && NoDup(level)
    requires forall x :: x in level ==> x in numParents && numParents[x] == 0
    ensures Counts(pairs, nodes, done + ToSet(level), counts) && Lists(pairs, done + ToSet(level), lists)
    ensures NoEmptyList(children) ==> NoEmptyList(lists)
  {
    counts, lists := numParents, children;
    assert done + ToSet(level[..0]) == done;
    for j := 0 to |level|
      invariant Removing(pairs, nodes, done, level, j, counts, lists)
      invariant NoEmptyList(children) ==> NoEmptyList(lists)
    {
      counts, lists := RemoveNext(pairs, nodes, done, level, j, counts, lists);
    }
    assert level[..|level|] == level;
  }

  /** A level goes after everything shallower. */
  lemma LevelGoesNext<T(!new)>(pairs: seq<(T, T)>, nodes: set<T>, k: nat, flat: seq<T>, level: seq<T>)
    requires Elements(pairs) <= nodes && Shallow(pairs, nodes, k, ToSet(flat)) && IsLevel(pairs, nodes, k, level)
    requires NoDup(flat) && ParentsFirst(pairs, flat)
    ensures NoDup(flat + level) && ParentsFirst(pairs, flat + level)
    ensures ToSet(flat + level) == ToSet(flat) + ToSet(level)
  {
    var longer := flat + level;
    NoDupConcat(flat, level) by {
      forall x | x in level ensures x !in flat { assert x in flat ==> x in ToSet(flat); }
    }
    forall i, p | 0 <= i < |longer| && Edge(pairs, p, longer[i]) ensures p in longer[..i] {
      if i < |flat| {
        assert longer[..i] == flat[..i];
      } else {
        assert longer[i] in level;
        ChainStep(pairs, longer[i], k);
        EdgeInElements(pairs, p, longer[i]);
        assert p in ToSet(flat) && longer[..i][..|flat|] == flat;
      }
    }
  }

  /** The levels yielded so far are the first ones, and `done` is what they hold. */
  ghost predicate LevelsSoFar<T(!new)>(pairs: seq<(T, T)>, nodes: set<T>, levels: seq<seq<T>>, done: set<T>) {
    && done == ToSet(Flatten(levels))
    && Shallow(pairs, nodes, |levels|, done)
    && (forall k :: 0 <= k < |levels| ==> IsLevel(pairs, nodes, k, levels[k]))
    && NoDup(Flatten(levels)) && ParentsFirst(pairs, Flatten(levels))
  }

  lemma AddLevel<T(!new)>(pairs: seq<(T, T)>, nodes: set<T>, levels: seq<seq<T>>, done: set<T>, level: seq<T>)
    requires Elements(pairs) <= nodes && LevelsSoFar(pairs, nodes, levels, done)
    requires IsLevel(pairs, nodes, |levels|, level)
    ensures LevelsSoFar(pairs, nodes, levels + [level], done + ToSet(level))
  {
    LevelGoesNext(pairs, nodes, |levels|, Flatten(levels), level);
    ShallowStep(pairs, nodes, |levels|, done, level);
    assert (levels + [level])[..|levels|] == levels;
  }

  lemma ZeroKeysAreLevel<T(!new)>(pairs: seq<(T, T)>, nodes: set<T>, done: set<T>, numParents: map<T, int>, k: nat,
                                  zeros: seq<T>)
    requires Elements(pairs) <= nodes && Counts(pairs, nodes, done, numParents) && Shallow(pairs, nodes, k, done)
    requires NoDup(zeros) && forall x :: x in zeros <==> x in numParents && numParents[x] == 0
    ensures zeros != [] ==> IsLevel(pairs, nodes, k, zeros)
  {
    forall x ensures x in zeros <==> AtLevel(pairs, nodes, k, x) {
      ZeroMeansLevel(pairs, nodes, done, numParents, k, x);
    }
  }

  lemma ParentsFirstClosed<T(!new)>(pairs: seq<(T, T)>, s: seq<T>)
    requires ParentsFirst(pairs, s)
    ensures ClosedUp(pairs, ToSet(s))
  {
    forall p, c | Edge(pairs, p, c) && c in ToSet(s) ensures p in ToSet(s) {
      var k :| 0 <= k < |s| && s[k] == c;
      assert p in s[..k];
    }
  }

  /** What the generator yields, and how it ends. */
  ghost predicate LevelsAnswer<T(!new)>(pairs: seq<(T, T)>, nodes: set<T>, levels: seq<seq<T>>, end: LevelsEnd<T>) {
    && (forall k :: 0 <= k < |levels| ==> IsLevel(pairs, nodes, k, levels[k]))
    && NoDup(Flatten(levels)) && ParentsFirst(pairs, Flatten(levels))
    && (forall x :: x in Flatten(levels) <==> x in nodes && !BelowCycle(pairs, x))
    && (end.StopIteration? <==> Acyclic(pairs))
    && (end.LevelsCycleError? ==>
        && Counts(pairs, nodes, ToSet(Flatten(levels)), end.numParents)
        && Lists(pairs, ToSet(Flatten(levels)), end.children)
        && Supported(pairs, end.numParents.Keys))
  }

  method TopsortLevelsCore<T(==, !new)>(ghost pairs: seq<(T, T)>, numParents: map<T, int>, children: map<T, seq<T>>)
    returns (levels: seq<seq<T>>, end: LevelsEnd<T>)
    requires Elements(pairs) <= numParents.Keys
    requires Counts(pairs, numParents.Keys, {}, numParents) && Lists(pairs, {}, children)
    ensures LevelsAnswer(pairs, numParents.Keys, levels, end)
    ensures NoEmptyList(children) && end.LevelsCycleError? ==> NoEmptyList(end.children)
  {
    levels := [];
    ghost var nodes, done := numParents.Keys, {};
    var counts, lists := numParents, children;
    NothingShallow(pairs, nodes);
    while true
      invariant LevelsSoFar(pairs, nodes, levels, done)
      invariant Counts(pairs, nodes, done, counts) && Lists(pairs, done, lists)
      invariant NoEmptyList(children) ==> NoEmptyList(lists)
      decreases counts.Keys
    {
      var level := ZeroKeys(counts);
      if level == [] {
        break;
      }
      ZeroKeysAreLevel(pairs, nodes, done, counts, |levels|, level);
      AddLevel(pairs, nodes, levels, done, level);
      ParentsFirstClosed(pairs, Flatten(levels));
      assert level[0] in level;
      counts, lists := TakeOutLevel(pairs, nodes, done, level, counts, lists);
      levels := levels + [level];
      done := done + ToSet(level);
    }
    LeftoverIsBelowCycle(pairs, nodes, Flatten(levels), counts);
    end := if counts.Keys != {} then LevelsCycleError(counts, lists) else StopIteration;
  }

  method TopsortLevels<T(==, !new)>(pairs: seq<(T, T)>) returns (levels: seq<seq<T>>, end: LevelsEnd<T>)
    ensures LevelsAnswer(pairs, Elements(pairs), levels, end)
    ensures end.LevelsCycleError? ==> NoEmptyList(end.children)
  {
    var numParents, children := Build(pairs);
    assert numParents.Keys == Elements(pairs);
    levels, end := TopsortLevelsCore(pairs, numParents, children);
  }

  /** Both sorts fail on the same pair lists, with the same elements done and the same dictionaries left over. */
  lemma SortsFailAlike<T(!new)>(pairs: seq<(T, T)>, r: SortResult<T>, levels: seq<seq<T>>, end: LevelsEnd<T>)
    requires SortAnswer(pairs, r) && LevelsAnswer(pairs, Elements(pairs), levels, end)
    requires end.LevelsCycleError? ==> NoEmptyList(end.children)
    ensures r.CycleError? <==> end.LevelsCycleError?
    ensures r.CycleError? ==> ToSet(r.answer) == ToSet(Flatten(levels))
    ensures r.CycleError? ==> r.numParents == end.numParents && r.children == end.children
    ensures r.Sorted? ==> ToSet(r.order) == ToSet(Flatten(levels))
  {
    if r.CycleError? {
      assert ToSet(r.answer) == ToSet(Flatten(levels));
      LeftoversAreDetermined(pairs, Elements(pairs), ToSet(r.answer), r.numParents, end.numParents, r.children,
        end.children);
    } else {
      AcyclicIffNothingBelowCycle(pairs);
      assert forall x :: x in r.order <==> x in Flatten(levels);
    }
  }

  /** What is left is determined by what has been taken out. */
  lemma LeftoversAreDetermined<T(!new)>(pairs: seq<(T, T)>, nodes: set<T>, done: set<T>,
                                        a: map<T, int>, b: map<T, int>, c: map<T, seq<T>>, d: map<T, seq<T>>)
    requires Counts(pairs, nodes, done, a) && Counts(pairs, nodes, done, b)
    requires Lists(pairs, done, c) && Lists(pairs, done, d) && NoEmptyList(c) && NoEmptyList(d)
    ensures a == b && c == d
  {
    assert a.Keys == b.Keys && forall x :: x in a ==> a[x] == b[x];
    forall p ensures p in c <==> p in d
      ensures p in c ==> c[p] == d[p]
    {
      KeysAreParents(pairs, done, c, p);
      KeysAreParents(pairs, done, d, p);
    }
  }
}
