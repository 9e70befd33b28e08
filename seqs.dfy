/**
 * Flattening of per-voxel lists into one dense list, in voxel order: the
 * layout that gives every fixel its index. Offset(xss, v) is the index of
 * the first element of voxel v.
 */
module Seqs {

  function Flatten<T>(xss: seq<seq<T>>): seq<T>
  {
    if |xss| == 0 then [] else Flatten(xss[..|xss| - 1]) + xss[|xss| - 1]
  }

  function Offset<T>(xss: seq<seq<T>>, v: nat): nat
    requires v <= |xss|
  {
    |Flatten(xss[..v])|
  }

  function Total<T>(xss: seq<seq<T>>): nat
  {
    |Flatten(xss)|
  }

  /** Two lists of lists with the same lengths everywhere. */
  ghost predicate SameShape<T, U>(xss: seq<seq<T>>, yss: seq<seq<U>>)
  {
    |xss| == |yss| && forall v :: 0 <= v < |xss| ==> |xss[v]| == |yss[v]|
  }

  lemma PrefixFlatten<T>(xss: seq<seq<T>>, v: nat)
    requires v < |xss|
    ensures Flatten(xss[..v + 1]) == Flatten(xss[..v]) + xss[v]
  {
    assert xss[..v + 1][..v] == xss[..v];
  }

  lemma OffsetStep<T>(xss: seq<seq<T>>, v: nat)
    requires v < |xss|
    ensures Offset(xss, v + 1) == Offset(xss, v) + |xss[v]|
  {
    PrefixFlatten(xss, v);
  }

  lemma {:induction false} OffsetMonotone<T>(xss: seq<seq<T>>, u: nat, v: nat)
    requires u <= v <= |xss|
    ensures Offset(xss, u) <= Offset(xss, v)
    decreases v - u
  {
    if u < v {
      OffsetStep(xss, u);
      OffsetMonotone(xss, u + 1, v);
    }
  }

  lemma OffsetTotal<T>(xss: seq<seq<T>>)
    ensures Offset(xss, |xss|) == Total(xss)
  {
    assert xss[..|xss|] == xss;
  }

  /** A voxel's range ends within the flattened list. */
  lemma OffsetBound<T>(xss: seq<seq<T>>, v: nat)
    requires v < |xss|
    ensures Offset(xss, v) + |xss[v]| <= Total(xss)
  {
    OffsetStep(xss, v);
    OffsetMonotone(xss, v + 1, |xss|);
    OffsetTotal(xss);
  }

  lemma {:induction false} ShapeOffset<T, U>(xss: seq<seq<T>>, yss: seq<seq<U>>, v: nat)
    requires SameShape(xss, yss) && v <= |xss|
    ensures Offset(xss, v) == Offset(yss, v)
    decreases v
  {
    if v > 0 {
      ShapeOffset(xss, yss, v - 1);
      OffsetStep(xss, v - 1);
      OffsetStep(yss, v - 1);
    }
  }

  lemma ShapeTotal<T, U>(xss: seq<seq<T>>, yss: seq<seq<U>>)
    requires SameShape(xss, yss)
    ensures Total(xss) == Total(yss)
  {
    ShapeOffset(xss, yss, |xss|);
    OffsetTotal(xss);
    OffsetTotal(yss);
  }

  /** Element k of voxel v sits at index Offset(v) + k of the flattened list. */
  lemma {:induction false} FlattenAt<T>(xss: seq<seq<T>>, v: nat, k: nat)
    requires v < |xss| && k < |xss[v]|
    ensures Offset(xss, v) + k < Total(xss)
    ensures Flatten(xss)[Offset(xss, v) + k] == xss[v][k]
    decreases |xss|
  {
    var n := |xss| - 1;
    var init := xss[..n];
    assert Flatten(xss) == Flatten(init) + xss[n];
    if v == n {
      assert xss[..v] == init;
    } else {
      FlattenAt(init, v, k);
      assert init[..v] == xss[..v];
    }
  }

  /**
   * The voxel ranges partition the flattened indices: every index lies in
   * the range of some voxel ...
   */
  lemma {:induction false} VoxelOf<T>(xss: seq<seq<T>>, f: nat) returns (v: nat, k: nat)
    requires f < Total(xss)
    ensures v < |xss| && k < |xss[v]| && f == Offset(xss, v) + k
    decreases |xss|
  {
    var n := |xss| - 1;
    var init := xss[..n];
    assert Flatten(xss) == Flatten(init) + xss[n];
    assert xss[..n] == init;
    if f < Total(init) {
      v, k := VoxelOf(init, f);
      assert init[..v] == xss[..v];
    } else {
      v, k := n, f - Total(init);
    }
  }

  /** ... and of only one, at only one position. */
  lemma VoxelOfUnique<T>(xss: seq<seq<T>>, v1: nat, k1: nat, v2: nat, k2: nat)
    requires v1 < |xss| && k1 < |xss[v1]| && v2 < |xss| && k2 < |xss[v2]|
    requires Offset(xss, v1) + k1 == Offset(xss, v2) + k2
    ensures v1 == v2 && k1 == k2
  {
    if v1 < v2 {
      OffsetStep(xss, v1);
      OffsetMonotone(xss, v1 + 1, v2);
    } else if v2 < v1 {
      OffsetStep(xss, v2);
      OffsetMonotone(xss, v2 + 1, v1);
    }
  }

  /** A flat list that agrees with xss at every (voxel, position) is its flattening. */
  lemma FlattenUnique<T>(xss: seq<seq<T>>, flat: seq<T>)
    requires |flat| == Total(xss)
    requires forall v, k :: 0 <= v < |xss| && 0 <= k < |xss[v]| ==> Offset(xss, v) + k < |flat| && flat[Offset(xss, v) + k] == xss[v][k]
    ensures flat == Flatten(xss)
  {
    forall f | 0 <= f < |flat|
      ensures flat[f] == Flatten(xss)[f]
    {
      var v, k := VoxelOf(xss, f);
      FlattenAt(xss, v, k);
    }
  }
}
