/**
 * The stride renormalisation of the `ants` algorithm of dwi2mask: the
 * spatial strides of the input image are shifted so that the smallest
 * magnitude becomes 1, keeping every stride's sign and the gaps between
 * magnitudes.
 */
module AntsStrides {

  function Abs(x: int): nat
  {
    if x < 0 then -x else x
  }

  /** Python's `min(abs(v) for v in strides)`: the smallest magnitude. */
  function MinAbs(s: seq<int>): (m: nat)
    requires |s| > 0
    ensures forall i :: 0 <= i < |s| ==> m <= Abs(s[i])
    ensures exists i :: 0 <= i < |s| && Abs(s[i]) == m
  {
    if |s| == 1 then Abs(s[0])
    else
      var rest := MinAbs(s[1..]);
      assert forall i :: 1 <= i < |s| ==> s[i] == s[1..][i - 1];
      if Abs(s[0]) <= rest then Abs(s[0]) else rest
  }

  /** The first three strides of the header: `strides()[0:3]`. */
  function Spatial(strides: seq<int>): (r: seq<int>)
    ensures |r| == if |strides| < 3 then |strides| else 3
    ensures forall i :: 0 <= i < |r| ==> r[i] == strides[i]
  {
    if |strides| < 3 then strides else strides[..3]
  }

  /**
   * The list comprehension of line 71. The `min` sits inside each element's
   * expression, so it is evaluated once per stride and never on an empty
   * list: no strides give no strides.
   */
  function Renormalise(s: seq<int>): (r: seq<int>)
    ensures |s| == 0 ==> r == []
    ensures |r| == |s|
    ensures forall i :: 0 <= i < |s| ==> (r[i] < 0 <==> s[i] < 0) && r[i] != 0
    ensures forall i :: 0 <= i < |s| ==> Abs(r[i]) == Abs(s[i]) + 1 - MinAbs(s)
  {
    seq(|s|, i requires 0 <= i < |s| => (Abs(s[i]) + 1 - MinAbs(s)) * (if s[i] < 0 then -1 else 1))
  }

  /** The smallest magnitude of the renormalised strides is exactly 1. */
  lemma SmallestIsOne(s: seq<int>)
    requires |s| > 0
    ensures MinAbs(Renormalise(s)) == 1
  {
    var r := Renormalise(s);
    var i :| 0 <= i < |s| && Abs(s[i]) == MinAbs(s);
    var j :| 0 <= j < |r| && Abs(r[j]) == MinAbs(r);
    assert Abs(r[i]) == 1;
    assert MinAbs(r) <= 1;
    assert Abs(r[j]) >= 1;
  }

  /** Differences between magnitudes are preserved, hence so is their order. */
  lemma GapsPreserved(s: seq<int>, i: nat, j: nat)
    requires i < |s| && j < |s|
    ensures Abs(Renormalise(s)[i]) - Abs(Renormalise(s)[j]) == Abs(s[i]) - Abs(s[j])
    ensures Abs(s[i]) <= Abs(s[j]) <==> Abs(Renormalise(s)[i]) <= Abs(Renormalise(s)[j])
  {
  }

  /** Renormalising strides that are already renormalised changes nothing. */
  lemma Idempotent(s: seq<int>)
    ensures Renormalise(Renormalise(s)) == Renormalise(s)
  {
    if |s| == 0 {
      return;
    }
    var r := Renormalise(s);
    SmallestIsOne(s);
    var rr := Renormalise(r);
    forall i | 0 <= i < |r|
      ensures rr[i] == r[i]
    {
      assert Abs(rr[i]) == Abs(r[i]);
      assert rr[i] < 0 <==> r[i] < 0;
    }
    assert |rr| == |r|;
    assert rr == r;
  }

  /** The list passed to mrconvert has one stride per spatial axis of the input. */
  lemma OutputLength(strides: seq<int>)
    requires |strides| >= 3
    ensures |Renormalise(Spatial(strides))| == 3
  {
  }
}
