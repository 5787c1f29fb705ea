/**
  Enumeration of simple cycles (bindings/python/topsort.py, find_cycles): a stack of
  simple paths is explored from each start node that no earlier search has marked.
*/
module FindCycles {
  import opened PairGraph
  import opened Seqs
  import opened Rotation

  type Graph<T(==)> = map<T, seq<T>>

  ghost predicate Child<T>(g: Graph<T>, p: T, c: T) {
    p in g && c in g[p]
  }

  /** Distinct nodes, each a parent of the next. */
  ghost predicate SimplePath<T>(g: Graph<T>, q: seq<T>) {
    && q != [] && NoDup(q)
    && forall i, j :: 0 <= i && j == i + 1 && j < |q| ==> Child(g, q[i], q[j])
  }

  ghost predicate PathFrom<T>(g: Graph<T>, root: T, q: seq<T>) {
    SimplePath(g, q) && q[0] == root
  }

  /** Distinct nodes, each a parent of the next, and the last a parent of the first. */
  ghost predicate SimpleCycle<T>(g: Graph<T>, c: seq<T>) {
    SimplePath(g, c) && Child(g, c[|c| - 1], c[0])
  }

  /** Some listed cycle is a rotation of c. */
  ghost predicate Covered<T>(cycles: seq<seq<T>>, c: seq<T>) {
    exists k :: 0 <= k < |cycles| && IsRotation(cycles[k], c)
  }

  /** Every cycle closed by one more step from the end of q is covered. */
  ghost predicate Closed<T(!new)>(g: Graph<T>, cycles: seq<seq<T>>, q: seq<T>)
    requires q != []
  {
    forall i {:trigger q[i..]} :: 0 <= i < |q| && Child(g, q[|q| - 1], q[i]) ==> Covered(cycles, q[i..])
  }

  /** The search from root has left nothing uncovered. */
  ghost predicate Complete<T(!new)>(g: Graph<T>, root: T, cycles: seq<seq<T>>) {
    forall q :: PathFrom(g, root, q) ==> Closed(g, cycles, q)
  }

  /** Each listed cycle is a simple cycle, and no two are rotations of each other. */
  ghost predicate SoundAndDistinct<T>(g: Graph<T>, cycles: seq<seq<T>>) {
    && (forall k :: 0 <= k < |cycles| ==> SimpleCycle(g, cycles[k]))
    && (forall j, k :: 0 <= j < k < |cycles| ==> !IsRotation(cycles[j], cycles[k]))
  }

  // ------------------------------------------------------------------ covered cycles

  lemma CoveredGrows<T>(cycles: seq<seq<T>>, more: seq<seq<T>>, c: seq<T>)
    requires Covered(cycles, c) && cycles <= more
    ensures Covered(more, c)
  {
    var k :| 0 <= k < |cycles| && IsRotation(cycles[k], c);
    assert more[k] == cycles[k];
  }

  lemma ClosedGrows<T(!new)>(g: Graph<T>, cycles: seq<seq<T>>, more: seq<seq<T>>, q: seq<T>)
    requires q != [] && Closed(g, cycles, q) && cycles <= more
    ensures Closed(g, more, q)
  {
    forall i | 0 <= i < |q| && Child(g, q[|q| - 1], q[i]) ensures Covered(more, q[i..]) {
      CoveredGrows(cycles, more, q[i..]);
    }
  }

  lemma CompleteGrows<T(!new)>(g: Graph<T>, root: T, cycles: seq<seq<T>>, more: seq<seq<T>>)
    requires Complete(g, root, cycles) && cycles <= more
    ensures Complete(g, root, more)
  {
    forall q | PathFrom(g, root, q) ensures Closed(g, more, q) {
      ClosedGrows(g, cycles, more, q);
    }
  }

  lemma TailIsCycle<T>(g: Graph<T>, q: seq<T>, i: nat)
    requires SimplePath(g, q) && i < |q| && Child(g, q[|q| - 1], q[i])
    ensures SimpleCycle(g, q[i..])
  {
    var c := q[i..];
    forall a, b | 0 <= a && b == a + 1 && b < |c| ensures Child(g, c[a], c[b]) {
      assert c[a] == q[i + a] && c[b] == q[i + b];
    }
  }

  /** A simple cycle may be entered at any of its nodes. */
  lemma RotatedCycle<T>(g: Graph<T>, c: seq<T>, m: nat)
    requires SimpleCycle(g, c) && m < |c|
    ensures SimpleCycle(g, Rotate(c, m))
    ensures Rotate(c, m)[0] == c[m]
  {
    var r := Rotate(c, m);
    forall a, b | 0 <= a < b < |r| ensures r[a] != r[b] {
      RotateAt(c, m, a);
      RotateAt(c, m, b);
    }
    forall a, b | 0 <= a && b == a + 1 && b < |r| ensures Child(g, r[a], r[b]) {
      RotateAt(c, m, a);
      RotateAt(c, m, b);
    }
    RotateAt(c, m, |c| - 1);
    RotateAt(c, m, 0);
  }

  /** A path into a cycle, followed by one turn around it, is a simple path. */
  lemma PathThenCycle<T>(g: Graph<T>, p: seq<T>, i: nat, c: seq<T>)
    requires SimplePath(g, p) && SimpleCycle(g, c) && i < |p| && p[i] == c[0]
    requires forall j :: 0 <= j < i ==> p[j] !in c
    ensures SimplePath(g, p[..i] + c)
  {
    var a, q := p[..i], p[..i] + c;
    NoDupConcat(a, c) by {
      forall x | x in c ensures x !in a {}
    }
    forall x, y | 0 <= x && y == x + 1 && y < |q| ensures Child(g, q[x], q[y]) {
      if y <= i {
        assert q[x] == p[x] && q[y] == p[y];
      } else {
        assert q[x] == c[x - i] && q[y] == c[y - i];
      }
    }
  }

  /** A complete search from root covers every simple cycle that a path from root meets. */
  lemma CompleteCovers<T(!new)>(g: Graph<T>, root: T, cycles: seq<seq<T>>, p: seq<T>, c: seq<T>)
    requires Complete(g, root, cycles) && PathFrom(g, root, p) && SimpleCycle(g, c)
    requires p[|p| - 1] in c
    ensures Covered(cycles, c)
  {
    var i := FirstOn(p, c);
    var m :| 0 <= m < |c| && c[m] == p[i];
    var r := Rotate(c, m);
    RotatedCycle(g, c, m);
    forall j | 0 <= j < i ensures p[j] !in r {
      if p[j] in r {
        var b :| 0 <= b < |r| && r[b] == p[j];
        RotateAt(c, m, b);
      }
    }
    PathThenCycle(g, p, i, r);
    var q := p[..i] + r;
    assert q[i..] == r && q[|q| - 1] == r[|r| - 1] && q[i] == r[0];
    assert PathFrom(g, root, q);
    assert Closed(g, cycles, q);
    assert Covered(cycles, q[i..]);
    var k :| 0 <= k < |cycles| && IsRotation(cycles[k], r);
    RotationSymmetric(c, r);
    RotationTransitive(cycles[k], r, c);
  }

  /** The first node of p that lies on c. */
  lemma {:induction false} FirstOn<T>(p: seq<T>, c: seq<T>) returns (i: nat)
    requires p != [] && p[|p| - 1] in c
    ensures i < |p| && p[i] in c && forall j :: 0 <= j < i ==> p[j] !in c
  {
    if p[0] in c {
      i := 0;
    } else {
      var k := FirstOn(p[1..], c);
      i := k + 1;
      forall j | 0 <= j < i ensures p[j] !in c {
        assert j > 0 ==> p[j] == p[1..][j - 1];
      }
    }
  }

  // ------------------------------------------------------------------ the path stack

  /** The paths pushed for the children of the last node of `path`, in order. */
  ghost function Extensions<T>(path: seq<T>, children: seq<T>): seq<seq<T>> {
    if children == [] then [] else
      var c := children[|children| - 1];
      Extensions(path, children[..|children| - 1]) + if c in path then [] else [path + [c]]
  }

  ghost function NextNodes<T>(path: seq<T>, children: seq<T>): set<T> {
    set c | c in children && c !in path
  }

  lemma {:induction false} ExtensionsAre<T>(path: seq<T>, children: seq<T>, q: seq<T>)
    ensures q in Extensions(path, children) <==> exists c :: c in children && c !in path && q == path + [c]
  {
    if children != [] {
      var init, c := children[..|children| - 1], children[|children| - 1];
      ExtensionsAre(path, init, q);
      assert children == init + [c];
    }
  }

  /** Every simple path from root is closed already or continues a path on the stack. */
  ghost predicate Pending<T(!new)>(g: Graph<T>, root: T, cycles: seq<seq<T>>, paths: seq<seq<T>>) {
    forall q :: PathFrom(g, root, q) ==> Closed(g, cycles, q) || Continues(paths, q)
  }

  ghost predicate Continues<T>(paths: seq<seq<T>>, q: seq<T>) {
    exists p :: p in paths && p <= q
  }

  ghost predicate AllFrom<T>(g: Graph<T>, root: T, paths: seq<seq<T>>) {
    forall p :: p in paths ==> PathFrom(g, root, p)
  }

  lemma ExtendPath<T>(g: Graph<T>, root: T, path: seq<T>, c: T)
    requires PathFrom(g, root, path) && Child(g, path[|path| - 1], c) && c !in path
    ensures PathFrom(g, root, path + [c])
  {
  }

  /** Replacing the popped path by its extensions loses no simple path. */
  lemma PopKeepsPending<T(!new)>(g: Graph<T>, root: T, cycles: seq<seq<T>>, rest: seq<seq<T>>, path: seq<T>,
                                 children: seq<T>, more: seq<seq<T>>)
    requires PathFrom(g, root, path) && Pending(g, root, cycles, rest + [path])
    requires forall c :: c in children <==> Child(g, path[|path| - 1], c)
    requires cycles <= more && Closed(g, more, path)
    ensures Pending(g, root, more, rest + Extensions(path, children))
  {
    var paths := rest + Extensions(path, children);
    forall q | PathFrom(g, root, q) ensures Closed(g, more, q) || Continues(paths, q) {
      if Closed(g, cycles, q) {
        ClosedGrows(g, cycles, more, q);
      } else {
        var p :| p in rest + [path] && p <= q;
        if p in rest {
          assert p in paths;
        } else if p != q {
          var c := q[|p|];
          assert Child(g, q[|p| - 1], c) && c !in p;
          ExtensionsAre(path, children, path + [c]);
          assert path + [c] in paths && path + [c] <= q;
        }
      }
    }
  }

  lemma PushKeepsAllFrom<T(!new)>(g: Graph<T>, root: T, rest: seq<seq<T>>, path: seq<T>, children: seq<T>)
    requires AllFrom(g, root, rest) && PathFrom(g, root, path)
    requires forall c :: c in children ==> Child(g, path[|path| - 1], c)
    ensures AllFrom(g, root, rest + Extensions(path, children))
  {
    forall p | p in Extensions(path, children) ensures PathFrom(g, root, p) {
      ExtensionsAre(path, children, p);
      var c :| c in children && c !in path && p == path + [c];
      ExtendPath(g, root, path, c);
    }
  }

  // -------------------------------------------------------------------- termination

  /** How many pops a stacked path gives rise to, when at most n nodes can still be added to it. */
  ghost function Pops<T>(g: Graph<T>, n: nat, path: seq<T>): nat
    decreases n, 0
  {
    if path == [] || path[|path| - 1] !in g || n == 0 then 1
    else 1 + PopsBelow(g, n - 1, path, g[path[|path| - 1]])
  }

  ghost function PopsBelow<T>(g: Graph<T>, n: nat, path: seq<T>, children: seq<T>): nat
    decreases n, 1 + |children|
  {
    if children == [] then 0 else
      var c := children[|children| - 1];
      PopsBelow(g, n, path, children[..|children| - 1]) + if c in path then 0 else Pops(g, n, path + [c])
  }

  /** The pops still to come, for paths over a set of `size` nodes. */
  ghost function TotalPops<T>(g: Graph<T>, size: nat, paths: seq<seq<T>>): nat {
    if paths == [] then 0 else
      var p := paths[|paths| - 1];
      TotalPops(g, size, paths[..|paths| - 1]) + Pops(g, if |p| <= size then size - |p| else 0, p)
  }

  lemma {:induction false} TotalPopsConcat<T>(g: Graph<T>, size: nat, paths: seq<seq<T>>, more: seq<seq<T>>)
    ensures TotalPops(g, size, paths + more) == TotalPops(g, size, paths) + TotalPops(g, size, more)
  {
    if more == [] {
      assert paths + more == paths;
    } else {
      TotalPopsConcat(g, size, paths, more[..|more| - 1]);
      assert (paths + more)[..|paths + more| - 1] == paths + more[..|more| - 1];
    }
  }

  lemma {:induction false} TotalPopsOfExtensions<T>(g: Graph<T>, size: nat, path: seq<T>, children: seq<T>)
    requires |path| < size
    ensures TotalPops(g, size, Extensions(path, children)) == PopsBelow(g, size - |path| - 1, path, children)
  {
    if children != [] {
      var init, c := children[..|children| - 1], children[|children| - 1];
      TotalPopsOfExtensions(g, size, path, init);
      if c !in path {
        var e := Extensions(path, init);
        assert (e + [path + [c]])[..|e|] == e;
      } else {
        assert Extensions(path, children) == Extensions(path, init);
      }
    }
  }

  ghost function Nodes<T>(g: Graph<T>): set<T> {
    g.Keys + set p, c | p in g && c in g[p] :: c
  }

  lemma PathInNodes<T>(g: Graph<T>, root: T, q: seq<T>)
    requires root in g && PathFrom(g, root, q)
    ensures ToSet(q) <= Nodes(g) && |q| <= |Nodes(g)|
  {
    forall i | 0 <= i < |q| ensures q[i] in Nodes(g) {
      assert i > 0 ==> Child(g, q[i - 1], q[i]);
    }
    NoDupBound(q, Nodes(g));
  }

  /** Each pop leaves one pop fewer to come. */
  lemma PopDecreases<T(!new)>(g: Graph<T>, root: T, rest: seq<seq<T>>, path: seq<T>, children: seq<T>)
    requires root in g && PathFrom(g, root, path)
    requires children == if path[|path| - 1] in g then g[path[|path| - 1]] else []
    ensures TotalPops(g, |Nodes(g)|, rest + Extensions(path, children)) + 1
         == TotalPops(g, |Nodes(g)|, rest + [path])
  {
    var size := |Nodes(g)|;
    PathInNodes(g, root, path);
    TotalPopsConcat(g, size, rest, Extensions(path, children));
    TotalPopsConcat(g, size, rest, [path]);
    assert [path][..0] == [];
    if |path| < size {
      TotalPopsOfExtensions(g, size, path, children);
    } else {
      if Extensions(path, children) != [] {
        var q := Extensions(path, children)[0];
        ExtensionsAre(path, children, q);
        var c :| c in children && c !in path && q == path + [c];
        ExtendPath(g, root, path, c);
        PathInNodes(g, root, q);
      }
    }
  }

  // ----------------------------------------------------------------------- the search

  /** Lines 371-375: is the cycle a rotation of one already listed? */
  method IsDuplicate<T(==)>(cycles: seq<seq<T>>, cycle: seq<T>) returns (isDup: bool)
    requires cycle != []
    ensures isDup <==> Covered(cycles, cycle)
  {
    for k := 0 to |cycles|
      invariant forall i :: 0 <= i < k ==> !IsRotation(cycles[i], cycle)
    {
      var rotated := IsRotated(cycles[k], cycle);
      if rotated.value {
        return true;
      }
    }
    return false;
  }

  method IndexOf<T(==)>(path: seq<T>, x: T) returns (i: nat)
    requires x in path
    ensures i < |path| && path[i] == x && x !in path[..i]
  {
    i := 0;
    while path[i] != x
      invariant i < |path| && x in path[i..] && x !in path[..i]
      decreases |path| - i
    {
      i := i + 1;
    }
  }

  lemma AppendDistinct<T>(g: Graph<T>, cycles: seq<seq<T>>, cycle: seq<T>)
    requires SoundAndDistinct(g, cycles) && SimpleCycle(g, cycle) && !Covered(cycles, cycle)
    ensures SoundAndDistinct(g, cycles + [cycle]) && Covered(cycles + [cycle], cycle)
  {
    RotationReflexive(cycle);
    assert (cycles + [cycle])[|cycles|] == cycle;
  }

  /** Lines 368-378: a child that lies on the path closes a cycle. */
  method RecordCycle<T(==)>(g: Graph<T>, path: seq<T>, child: T, cycles: seq<seq<T>>) returns (more: seq<seq<T>>)
    requires SoundAndDistinct(g, cycles) && SimplePath(g, path)
    requires child in path && Child(g, path[|path| - 1], child)
    ensures SoundAndDistinct(g, more) && cycles <= more
    ensures forall i :: 0 <= i < |path| && path[i] == child ==> Covered(more, path[i..])
  {
    var i := IndexOf(path, child);
    var cycle := path[i..];
    TailIsCycle(g, path, i);
    var isDup := IsDuplicate(cycles, cycle);
    more := cycles;
    if !isDup {
      AppendDistinct(g, cycles, cycle);
      more := cycles + [cycle];
    }
  }

  /** Lines 362-385: the loop over the children of the last node of a popped path. */
  method Expand<T(==, !new)>(g: Graph<T>, path: seq<T>, paths: seq<seq<T>>, visited: set<T>, cycles: seq<seq<T>>)
    returns (paths': seq<seq<T>>, visited': set<T>, cycles': seq<seq<T>>)
    requires SimplePath(g, path) && path[|path| - 1] in g && SoundAndDistinct(g, cycles)
    ensures paths' == paths + Extensions(path, g[path[|path| - 1]])
    ensures visited' == visited + NextNodes(path, g[path[|path| - 1]])
    ensures SoundAndDistinct(g, cycles') && cycles <= cycles' && Closed(g, cycles', path)
  {
    var children := g[path[|path| - 1]];
    paths', visited', cycles' := paths, visited, cycles;
    for j := 0 to |children|
      invariant paths' == paths + Extensions(path, children[..j])
      invariant visited' == visited + NextNodes(path, children[..j])
      invariant SoundAndDistinct(g, cycles') && cycles <= cycles'
      invariant forall i {:trigger path[i..]} ::
        0 <= i < |path| && path[i] in children[..j] ==> Covered(cycles', path[i..])
    {
      var child := children[j];
      assert children[..j + 1] == children[..j] + [child];
      assert children[..j + 1][..j] == children[..j];
      if child in path {
        ghost var before := cycles';
        cycles' := RecordCycle(g, path, child, cycles');
        forall i | 0 <= i < |path| && path[i] in children[..j] ensures Covered(cycles', path[i..]) {
          CoveredGrows(before, cycles', path[i..]);
        }
      } else {
        paths' := paths' + [path + [child]];
        visited' := visited' + {child};
      }
    }
    assert children[..|children|] == children;
  }

  ghost predicate Reaches<T(!new)>(g: Graph<T>, root: T, v: T) {
    exists p :: PathFrom(g, root, p) && p[|p| - 1] == v
  }

  /** Lines 351-385: explore every simple path from one root. */
  method SearchFrom<T(==, !new)>(g: Graph<T>, root: T, visited: set<T>, cycles: seq<seq<T>>)
    returns (visited': set<T>, cycles': seq<seq<T>>)
    requires root in g && SoundAndDistinct(g, cycles)
    ensures SoundAndDistinct(g, cycles') && cycles <= cycles' && Complete(g, root, cycles')
    ensures forall v :: v in visited' ==> v in visited || Reaches(g, root, v)
  {
    visited', cycles' := visited, cycles;
    var paths := [[root]];
    StartPending(g, root, cycles);
    while paths != []
      invariant SoundAndDistinct(g, cycles') && cycles <= cycles'
      invariant AllFrom(g, root, paths) && Pending(g, root, cycles', paths)
      invariant forall v :: v in visited' ==> v in visited || Reaches(g, root, v)
      decreases TotalPops(g, |Nodes(g)|, paths)
    {
      var rest, path := paths[..|paths| - 1], paths[|paths| - 1];
      assert paths == rest + [path] && path in paths;
      ghost var before := cycles';
      var parent := path[|path| - 1];
      ghost var children := if parent in g then g[parent] else [];
      PopDecreases(g, root, rest, path, children);
      PushKeepsAllFrom(g, root, rest, path, children);
      NextReached(g, root, path, children);
      if parent in g {
        paths, visited', cycles' := Expand(g, path, rest, visited', cycles');
      } else {
        paths := rest;
      }
      PopKeepsPending(g, root, before, rest, path, children, cycles');
      assert paths == rest + Extensions(path, children);
    }
  }

  lemma StartPending<T(!new)>(g: Graph<T>, root: T, cycles: seq<seq<T>>)
    ensures Pending(g, root, cycles, [[root]]) && AllFrom(g, root, [[root]])
  {
    forall q | PathFrom(g, root, q) ensures Continues([[root]], q) {
      assert [root] in [[root]] && [root] <= q;
    }
  }

  lemma NextReached<T(!new)>(g: Graph<T>, root: T, path: seq<T>, children: seq<T>)
    requires PathFrom(g, root, path) && forall c :: c in children ==> Child(g, path[|path| - 1], c)
    ensures forall v :: v in NextNodes(path, children) ==> Reaches(g, root, v)
  {
    forall v | v in NextNodes(path, children) ensures Reaches(g, root, v) {
      ExtendPath(g, root, path, v);
      assert PathFrom(g, root, path + [v]) && (path + [v])[|path + [v]| - 1] == v;
    }
  }

  method FindAllCycles<T(==, !new)>(g: Graph<T>) returns (cycles: seq<seq<T>>)
    ensures forall k :: 0 <= k < |cycles| ==> SimpleCycle(g, cycles[k])
    ensures forall j, k :: 0 <= j < k < |cycles| ==> !IsRotation(cycles[j], cycles[k])
    ensures forall c :: SimpleCycle(g, c) ==> Covered(cycles, c)
  {
    cycles := [];
    var visited: set<T> := {};
    var keys := g.Keys;
    ghost var roots: set<T> := {};
    while keys != {}
      invariant keys <= g.Keys && roots <= g.Keys && SoundAndDistinct(g, cycles)
      invariant forall r :: r in roots ==> Complete(g, r, cycles)
      invariant forall v :: v in visited ==> ReachedFrom(g, roots, v)
      invariant forall k :: k in g.Keys && k !in keys ==> ReachedFrom(g, roots, k)
    {
      var parent :| parent in keys;
      keys := keys - {parent};
      if parent in visited {
        continue;
      }
      ghost var before := cycles;
      visited, cycles := SearchFrom(g, parent, visited, cycles);
      forall r | r in roots ensures Complete(g, r, cycles) {
        CompleteGrows(g, r, before, cycles);
      }
      MoreRoots(g, roots, parent);
      roots := roots + {parent};
    }
    forall c | SimpleCycle(g, c) ensures Covered(cycles, c) {
      assert c[0] in g by { assert |c| > 1 ==> Child(g, c[0], c[1]); }
      assert ReachedFrom(g, roots, c[0]);
      var r :| r in roots && Reaches(g, r, c[0]);
      var p :| PathFrom(g, r, p) && p[|p| - 1] == c[0];
      CompleteCovers(g, r, cycles, p, c);
    }
  }

  ghost predicate ReachedFrom<T(!new)>(g: Graph<T>, roots: set<T>, v: T) {
    exists r :: r in roots && Reaches(g, r, v)
  }

  lemma MoreRoots<T(!new)>(g: Graph<T>, roots: set<T>, r: T)
    ensures forall v :: ReachedFrom(g, roots, v) ==> ReachedFrom(g, roots + {r}, v)
    ensures forall v :: Reaches(g, r, v) ==> ReachedFrom(g, roots + {r}, v)
    ensures Reaches(g, r, r)
  {
    assert PathFrom(g, r, [r]) && [r][|[r]| - 1] == r;
  }
}
