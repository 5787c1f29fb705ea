/** Rotations of a sequence, and the test for them in bindings/python/rad_util.py. */
module Rotation {

  datatype Outcome = Answer(value: bool) | IndexError

  function Rotate<T>(s: seq<T>, k: nat): (r: seq<T>)
    requires k <= |s|
    ensures |r| == |s|
  {
    s[k..] + s[..k]
  }

  /** t is s with some leading part moved to the end. */
  ghost predicate IsRotation<T>(s: seq<T>, t: seq<T>) {
    exists k :: 0 <= k < |s| && t == Rotate(s, k)
  }

  lemma RotationReflexive<T>(s: seq<T>)
    requires s != []
    ensures IsRotation(s, s)
  {
    assert s == Rotate(s, 0);
  }

  lemma RotationSymmetric<T>(s: seq<T>, t: seq<T>)
    requires IsRotation(s, t)
    ensures IsRotation(t, s)
  {
    var k :| 0 <= k < |s| && t == Rotate(s, k);
    if k == 0 {
      assert s == Rotate(t, 0);
    } else {
      assert s == Rotate(t, |s| - k);
    }
  }

  lemma RotationTransitive<T>(s: seq<T>, t: seq<T>, u: seq<T>)
    requires IsRotation(s, t) && IsRotation(t, u)
    ensures IsRotation(s, u)
  {
    var j :| 0 <= j < |s| && t == Rotate(s, j);
    var k :| 0 <= k < |t| && u == Rotate(t, k);
    RotateTwice(s, j, k);
  }

  lemma RotateTwice<T>(s: seq<T>, j: nat, k: nat)
    requires j < |s| && k < |s|
    ensures Rotate(Rotate(s, j), k) == Rotate(s, if j + k < |s| then j + k else j + k - |s|)
  {
    var t := Rotate(s, j);
    var m := if j + k < |s| then j + k else j + k - |s|;
    forall i | 0 <= i < |s| ensures Rotate(t, k)[i] == Rotate(s, m)[i] {
      RotateAt(t, k, i);
      RotateAt(s, j, if k + i < |s| then k + i else k + i - |s|);
      RotateAt(s, m, i);
    }
  }

  lemma RotateAt<T>(s: seq<T>, k: nat, i: nat)
    requires k < |s| && i < |s|
    ensures Rotate(s, k)[i] == if k + i < |s| then s[k + i] else s[k + i - |s|]
  {
  }

  /** The doubled sequence, cut at k, is the rotation by k. */
  lemma DoubledCut<T>(s: seq<T>, k: nat)
    requires k < |s|
    ensures (s + s)[k..k + |s|] == Rotate(s, k)
  {
  }

  /** Lines 761-775. Two empty sequences raise, since the head of the second is read. */
  method IsRotated<T(==)>(seq1: seq<T>, seq2: seq<T>) returns (r: Outcome)
    ensures r.IndexError? <==> seq1 == [] && seq2 == []
    ensures r.Answer? ==> (r.value <==> IsRotation(seq1, seq2))
  {
    if |seq1| != |seq2| {
      return Answer(false);
    }
    if seq2 == [] {
      return IndexError;
    }
    var startIndexes := [];
    var headItem := seq2[0];
    for index1 := 0 to |seq1|
      invariant forall i :: i in startIndexes <==> 0 <= i < index1 && seq1[i] == headItem
    {
      if seq1[index1] == headItem {
        startIndexes := startIndexes + [index1];
      }
    }
    var doubled := seq1 + seq1;
    for m := 0 to |startIndexes|
      invariant forall i :: 0 <= i < |seq1| && i in startIndexes[..m] ==> seq2 != Rotate(seq1, i)
    {
      var index1 := startIndexes[m];
      assert index1 in startIndexes;
      DoubledCut(seq1, index1);
      if doubled[index1..index1 + |seq1|] == seq2 {
        return Answer(true);
      }
    }
    assert startIndexes[..|startIndexes|] == startIndexes;
    return Answer(false);
  }
}
