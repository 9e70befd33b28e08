/**
 * The fixel index of fixelcfestats. The template fixel mask is a sparse
 * image: one list of fixels per voxel, the voxels in loop order. The index
 * gives every voxel the pair (offset, count) of its fixels in the dense
 * numbering of all template fixels, and the dense lists of fixel directions
 * and positions are built beside it. `write_fixel_output` reads a dense
 * vector back into the sparse layout of the mask.
 *
 * The 4-D indexer image (x, y, z, 2) is an array with one row per voxel, in
 * loop order: column 0 holds the offset, column 1 the count.
 */
module FixelIndex {

  import opened Seqs
  import opened FixelGeometry

  /** The fixels of one voxel of a sparse fixel image. */
  type Voxel = seq<FixelMetric>

  function Dirs(v: Voxel): (r: seq<Vec3>)
    ensures |r| == |v| && forall f :: 0 <= f < |v| ==> r[f] == v[f].dir
  {
    seq(|v|, f requires 0 <= f < |v| => v[f].dir)
  }

  function Repeat(x: Vec3, n: nat): (r: seq<Vec3>)
    ensures |r| == n && forall i :: 0 <= i < n ==> r[i] == x
  {
    seq(n, _ => x)
  }

  /** The directions of the mask, voxel by voxel. */
  function MaskDirections(mask: seq<Voxel>): (r: seq<seq<Vec3>>)
    ensures SameShape(r, mask)
    ensures forall v :: 0 <= v < |mask| ==> r[v] == Dirs(mask[v])
  {
    seq(|mask|, v requires 0 <= v < |mask| => Dirs(mask[v]))
  }

  /** The scanner position of each voxel, once per fixel of the voxel. */
  function MaskPositions(mask: seq<Voxel>, scanner: nat -> Vec3): (r: seq<seq<Vec3>>)
    ensures |r| == |mask| && forall v :: 0 <= v < |mask| ==> r[v] == Repeat(scanner(v), |mask[v]|)
    ensures SameShape(r, mask)
  {
    seq(|mask|, v requires 0 <= v < |mask| => Repeat(scanner(v), |mask[v]|))
  }

  /** The indexer holds, for every voxel, its offset and its fixel count. */
  ghost predicate IndexerMatches(indexer: array2<int>, mask: seq<Voxel>)
    reads indexer
  {
    indexer.Length0 == |mask| && indexer.Length1 == 2 &&
    forall v {:trigger indexer[v, 0]} {:trigger indexer[v, 1]} :: 0 <= v < |mask| ==> indexer[v, 0] == Offset(mask, v) && indexer[v, 1] == |mask[v]|
  }

  /**
   * The index build of `run()`: every entry is first set to -1, then the
   * loop over the mask gives each voxel the number of fixels seen before it
   * as offset and its own fixel count, while every fixel appends its
   * direction and its voxel's scanner position. `scanner` stands for
   * `voxel2scanner`, applied to the voxel's loop position.
   */
  method BuildIndex(mask: seq<Voxel>, scanner: nat -> Vec3)
    returns (indexer: array2<int>, directions: seq<Vec3>, positions: seq<Vec3>)
    ensures fresh(indexer)
    ensures IndexerMatches(indexer, mask)
    ensures directions == Flatten(MaskDirections(mask))
    ensures positions == Flatten(MaskPositions(mask, scanner))
  {
    indexer := new int[|mask|, 2];
    ClearIndexer(indexer);
    ghost var dss, pss := MaskDirections(mask), MaskPositions(mask, scanner);
    directions, positions := [], [];
    for v := 0 to |mask|
      invariant directions == Flatten(dss[..v]) && positions == Flatten(pss[..v])
      invariant forall u {:trigger indexer[u, 0]} {:trigger indexer[u, 1]} :: 0 <= u < v ==> indexer[u, 0] == Offset(mask, u) && indexer[u, 1] == |mask[u]|
    {
      IndexStep(mask, scanner, v);
      var first := |directions|;
      var fixelCount;
      directions, positions, fixelCount := AppendFixels(directions, positions, mask[v], scanner(v));
      SetVoxel(indexer, mask, v, first, fixelCount);
    }
    assert dss[..|mask|] == dss && pss[..|mask|] == pss;
  }

  /** `indexer_vox.value() = ...` for the two entries of voxel v, after those of the voxels before it. */
  method SetVoxel(indexer: array2<int>, mask: seq<Voxel>, v: nat, first: nat, fixelCount: nat)
    requires indexer.Length0 == |mask| && indexer.Length1 == 2 && v < |mask|
    requires first == Offset(mask, v) && fixelCount == |mask[v]|
    requires forall u {:trigger indexer[u, 0]} {:trigger indexer[u, 1]} :: 0 <= u < v ==> indexer[u, 0] == Offset(mask, u) && indexer[u, 1] == |mask[u]|
    modifies indexer
    ensures forall u {:trigger indexer[u, 0]} {:trigger indexer[u, 1]} :: 0 <= u <= v ==> indexer[u, 0] == Offset(mask, u) && indexer[u, 1] == |mask[u]|
  {
    indexer[v, 0] := first;
    indexer[v, 1] := fixelCount;
  }

  /** One voxel's step of the index build, stated on the specification. */
  lemma IndexStep(mask: seq<Voxel>, scanner: nat -> Vec3, v: nat)
    requires v < |mask|
    ensures |Flatten(MaskDirections(mask)[..v])| == Offset(mask, v)
    ensures Flatten(MaskDirections(mask)[..v + 1]) == Flatten(MaskDirections(mask)[..v]) + Dirs(mask[v])
    ensures Flatten(MaskPositions(mask, scanner)[..v + 1]) == Flatten(MaskPositions(mask, scanner)[..v]) + Repeat(scanner(v), |mask[v]|)
  {
    ShapeOffset(MaskDirections(mask), mask, v);
    PrefixFlatten(MaskDirections(mask), v);
    PrefixFlatten(MaskPositions(mask, scanner), v);
  }

  /** The loop over the whole 4-D indexer that sets every entry to -1. */
  method ClearIndexer(indexer: array2<int>)
    modifies indexer
    ensures forall u, c :: 0 <= u < indexer.Length0 && 0 <= c < indexer.Length1 ==> indexer[u, c] == -1
  {
    for u := 0 to indexer.Length0
      invariant forall w, c :: 0 <= w < u && 0 <= c < indexer.Length1 ==> indexer[w, c] == -1
    {
      for c := 0 to indexer.Length1
        invariant forall w, d :: 0 <= w < indexer.Length0 && 0 <= d < indexer.Length1 && (w < u || (w == u && d < c)) ==> indexer[w, d] == -1
      {
        indexer[u, c] := -1;
      }
    }
  }

  /** The loop over the fixels of one voxel: one direction and one position per fixel. */
  method AppendFixels(directions: seq<Vec3>, positions: seq<Vec3>, voxel: Voxel, position: Vec3)
    returns (directions': seq<Vec3>, positions': seq<Vec3>, fixelCount: nat)
    ensures directions' == directions + Dirs(voxel)
    ensures positions' == positions + Repeat(position, |voxel|)
    ensures fixelCount == |voxel|
  {
    directions', positions', fixelCount := directions, positions, 0;
    for f := 0 to |voxel|
      invariant fixelCount == f
      invariant directions' == directions + Dirs(voxel)[..f]
      invariant positions' == positions + Repeat(position, f)
    {
      directions' := directions' + [voxel[f].dir];
      positions' := positions' + [position];
      fixelCount := fixelCount + 1;
      assert Dirs(voxel)[..f + 1] == Dirs(voxel)[..f] + [voxel[f].dir];
      assert Repeat(position, f + 1) == Repeat(position, f) + [position];
    }
    assert Dirs(voxel)[..|voxel|] == Dirs(voxel);
  }

  /**
   * The dense lists put fixel f of voxel v at index offset + f: its own
   * direction and its voxel's position, for every fixel of the mask.
   */
  lemma IndexedFixel(mask: seq<Voxel>, scanner: nat -> Vec3, v: nat, f: nat)
    requires v < |mask| && f < |mask[v]|
    ensures |Flatten(MaskDirections(mask))| == Total(mask) == |Flatten(MaskPositions(mask, scanner))|
    ensures Offset(mask, v) + f < Total(mask)
    ensures Flatten(MaskDirections(mask))[Offset(mask, v) + f] == mask[v][f].dir
    ensures Flatten(MaskPositions(mask, scanner))[Offset(mask, v) + f] == scanner(v)
  {
    var dss, pss := MaskDirections(mask), MaskPositions(mask, scanner);
    ShapeTotal(dss, mask);
    ShapeTotal(pss, mask);
    ShapeOffset(dss, mask, v);
    ShapeOffset(pss, mask, v);
    FlattenAt(dss, v, f);
    FlattenAt(pss, v, f);
  }

  /** All fixels of one voxel share one position. */
  lemma SharedPosition(mask: seq<Voxel>, scanner: nat -> Vec3, v: nat, f: nat, g: nat)
    requires v < |mask| && f < |mask[v]| && g < |mask[v]|
    ensures |Flatten(MaskPositions(mask, scanner))| == Total(mask)
    ensures Offset(mask, v) + f < Total(mask) && Offset(mask, v) + g < Total(mask)
    ensures Flatten(MaskPositions(mask, scanner))[Offset(mask, v) + f] == Flatten(MaskPositions(mask, scanner))[Offset(mask, v) + g]
  {
    IndexedFixel(mask, scanner, v, f);
    IndexedFixel(mask, scanner, v, g);
  }

  /**
   * The ranges [offset, offset + count) of the voxels follow each other in
   * loop order without gaps, from 0 to the number of fixels.
   */
  lemma RangesPartition(mask: seq<Voxel>, v: nat)
    requires v < |mask|
    ensures Offset(mask, 0) == 0
    ensures Offset(mask, v) + |mask[v]| == if v + 1 < |mask| then Offset(mask, v + 1) else Total(mask)
  {
    OffsetStep(mask, v);
    if v + 1 == |mask| {
      OffsetTotal(mask);
    }
  }

  /** The sparse image `write_fixel_output` writes: the mask with fixel values from data. */
  function WithValues(mask: seq<Voxel>, data: seq<real>): (r: seq<Voxel>)
    requires |data| >= Total(mask)
    ensures SameShape(r, mask)
  {
    seq(|mask|, v requires 0 <= v < |mask| =>
      seq(|mask[v]|, f requires 0 <= f < |mask[v]| =>
        OffsetBound(mask, v);
        mask[v][f].(value := data[Offset(mask, v) + f])))
  }

  function Values(fixels: seq<FixelMetric>): (r: seq<real>)
    ensures |r| == |fixels| && forall i :: 0 <= i < |fixels| ==> r[i] == fixels[i].value
  {
    seq(|fixels|, i requires 0 <= i < |fixels| => fixels[i].value)
  }

  /**
   * `write_fixel_output`: each output voxel is a copy of the mask voxel whose
   * fixel f takes the value data[offset + f], with the offset read from the
   * indexer.
   */
  method WriteFixelOutput(data: seq<real>, mask: seq<Voxel>, indexer: array2<int>) returns (output: seq<Voxel>)
    requires IndexerMatches(indexer, mask)
    requires |data| >= Total(mask)
    ensures output == WithValues(mask, data)
  {
    ghost var expected := WithValues(mask, data);
    output := [];
    for v := 0 to |mask|
      invariant output == expected[..v]
    {
      OffsetBound(mask, v);
      var voxel: Voxel := [];
      var index := indexer[v, 0];
      for f := 0 to |mask[v]|
        invariant index == Offset(mask, v) + f
        invariant voxel == expected[v][..f]
      {
        voxel := voxel + [mask[v][f].(value := data[index])];
        index := index + 1;
        assert expected[v][..f + 1] == expected[v][..f] + [expected[v][f]];
      }
      assert expected[v][..|mask[v]|] == expected[v];
      output := output + [voxel];
      assert expected[..v + 1] == expected[..v] + [expected[v]];
    }
    assert expected[..|mask|] == expected;
  }

  /**
   * Round trip: reading the written image back in fixel order gives the
   * first num_fixels entries of data, and the directions of the mask.
   */
  lemma OutputRoundTrip(mask: seq<Voxel>, data: seq<real>)
    requires |data| >= Total(mask)
    ensures Values(Flatten(WithValues(mask, data))) == data[..Total(mask)]
    ensures Flatten(MaskDirections(WithValues(mask, data))) == Flatten(MaskDirections(mask))
  {
    var out := WithValues(mask, data);
    ShapeTotal(out, mask);
    var vals := Values(Flatten(out));
    forall i | 0 <= i < Total(mask)
      ensures vals[i] == data[i]
    {
      var v, f := VoxelOf(out, i);
      FlattenAt(out, v, f);
      ShapeOffset(out, mask, v);
    }
    forall v | 0 <= v < |mask|
      ensures Dirs(out[v]) == Dirs(mask[v])
    {
    }
    assert MaskDirections(out) == MaskDirections(mask);
  }
}
