/**
 * Loading the subjects' fixel data in fixelcfestats. For every subject
 * image, each template fixel takes the value of the subject fixel in the
 * same voxel whose direction is nearest to it, provided that fixel is
 * within the angular threshold; otherwise its value stays 0. The resulting
 * vector is then smoothed: the value of a fixel becomes the sum, over its
 * row of smoothing weights, of weight times value. The smoothed vector is
 * the subject's column of the data matrix.
 */
module SubjectData {

  import opened Wrappers
  import opened Seqs
  import opened Maps
  import opened FixelGeometry
  import opened FixelIndex

  /** The spatial dimensions of an image. */
  datatype Dims = Dims(x: nat, y: nat, z: nat)

  /** A subject's sparse fixel image: its dimensions and its voxels in loop order. */
  datatype FixelImage = FixelImage(dims: Dims, voxels: seq<Voxel>)

  function Volume(d: Dims): nat
  {
    d.x * d.y * d.z
  }

  ghost predicate WellFormed(img: FixelImage)
  {
    |img.voxels| == Volume(img.dims)
  }

  /** `check_dimensions (fixel, mask, 0, 3)`: the first three axes agree. */
  function DimensionsMatch(a: Dims, b: Dims): (r: bool)
    ensures r ==> Volume(a) == Volume(b)
  {
    a.x == b.x && a.y == b.y && a.z == b.z
  }

  /**
   * The value a template fixel with direction dir takes from a subject
   * voxel: the value of the subject fixel with the largest |dot| (the first
   * of equals) when it beats the threshold, 0 when no fixel does.
   */
  function MatchedValue(dir: Vec3, voxel: Voxel, threshold: real): (r: real)
    requires threshold >= 0.0
    ensures (forall j :: 0 <= j < |voxel| ==> AbsDot(dir, voxel[j].dir) <= threshold) ==> r == 0.0
    ensures (exists j :: 0 <= j < |voxel| && AbsDot(dir, voxel[j].dir) > threshold) ==>
      exists j :: 0 <= j < |voxel| && r == voxel[j].value && AbsDot(dir, voxel[j].dir) > threshold &&
        (forall i :: 0 <= i < |voxel| ==> AbsDot(dir, voxel[i].dir) <= AbsDot(dir, voxel[j].dir)) &&
        (forall i :: 0 <= i < j ==> AbsDot(dir, voxel[i].dir) < AbsDot(dir, voxel[j].dir))
  {
    var dirs := Dirs(voxel);
    match Match(dir, dirs, 0, |voxel|, threshold)
    case Some(j) => voxel[j].value
    case None => 0.0
  }

  /** The matched values of the fixels of voxel v, in the order of the mask. */
  function VoxelValues(directions: seq<Vec3>, mask: seq<Voxel>, subject: seq<Voxel>, threshold: real, v: nat): (r: seq<real>)
    requires threshold >= 0.0 && |directions| == Total(mask) && |subject| == |mask| && v < |mask|
    ensures |r| == |mask[v]|
  {
    OffsetBound(mask, v);
    seq(|mask[v]|, f requires 0 <= f < |mask[v]| => MatchedValue(directions[Offset(mask, v) + f], subject[v], threshold))
  }

  /** `temp_fixel_data` after the loop over the voxels: one matched value per template fixel. */
  function SubjectTemp(directions: seq<Vec3>, mask: seq<Voxel>, subject: seq<Voxel>, threshold: real): (r: seq<real>)
    requires threshold >= 0.0 && |directions| == Total(mask) && |subject| == |mask|
    ensures |r| == Total(mask)
  {
    var vss := seq(|mask|, v requires 0 <= v < |mask| => VoxelValues(directions, mask, subject, threshold, v));
    assert SameShape(vss, mask);
    ShapeTotal(vss, mask);
    Flatten(vss)
  }

  /**
   * Fixel f of voxel v takes its value from voxel v of the subject only,
   * matched against its own template direction.
   */
  lemma SubjectTempAt(directions: seq<Vec3>, mask: seq<Voxel>, subject: seq<Voxel>, threshold: real, v: nat, f: nat)
    requires threshold >= 0.0 && |directions| == Total(mask) && |subject| == |mask|
    requires v < |mask| && f < |mask[v]|
    ensures Offset(mask, v) + f < Total(mask)
    ensures SubjectTemp(directions, mask, subject, threshold)[Offset(mask, v) + f] ==
      MatchedValue(directions[Offset(mask, v) + f], subject[v], threshold)
  {
    var vss := seq(|mask|, u requires 0 <= u < |mask| => VoxelValues(directions, mask, subject, threshold, u));
    assert SameShape(vss, mask);
    OffsetBound(mask, v);
    ShapeOffset(vss, mask, v);
    FlattenAt(vss, v, f);
  }

  /** The template fixels of voxel v hold the indices lo .. hi-1, and their matched values. */
  lemma VoxelRange(directions: seq<Vec3>, mask: seq<Voxel>, subject: seq<Voxel>, threshold: real, v: nat)
    requires threshold >= 0.0 && |directions| == Total(mask) && |subject| == |mask| && v < |mask|
    ensures Offset(mask, v) + |mask[v]| == if v + 1 < |mask| then Offset(mask, v + 1) else Total(mask)
    ensures Offset(mask, v) + |mask[v]| <= Total(mask)
    ensures forall i :: Offset(mask, v) <= i < Offset(mask, v) + |mask[v]| ==>
      SubjectTemp(directions, mask, subject, threshold)[i] == MatchedValue(directions[i], subject[v], threshold)
  {
    RangesPartition(mask, v);
    OffsetBound(mask, v);
    forall i | Offset(mask, v) <= i < Offset(mask, v) + |mask[v]|
      ensures SubjectTemp(directions, mask, subject, threshold)[i] == MatchedValue(directions[i], subject[v], threshold)
    {
      SubjectTempAt(directions, mask, subject, threshold, v, i - Offset(mask, v));
    }
  }

  /**
   * The loop over the voxels of one subject: for each template fixel of the
   * voxel, the scan over the subject's fixels and, if the best beats the
   * threshold, the write into temp_fixel_data. The offsets and counts are
   * read from the indexer.
   */
  method MatchSubject(directions: seq<Vec3>, mask: seq<Voxel>, indexer: array2<int>, subject: seq<Voxel>, threshold: real)
    returns (temp: seq<real>)
    requires IndexerMatches(indexer, mask)
    requires threshold >= 0.0 && |directions| == Total(mask) && |subject| == |mask|
    ensures temp == SubjectTemp(directions, mask, subject, threshold)
  {
    ghost var expected := SubjectTemp(directions, mask, subject, threshold);
    temp := seq(|directions|, _ => 0.0);
    ghost var lo := 0;
    if |mask| > 0 {
      RangesPartition(mask, 0);
    }
    for v := 0 to |mask|
      invariant |temp| == |directions|
      invariant lo == (if v < |mask| then Offset(mask, v) else Total(mask)) && lo <= Total(mask)
      invariant forall i :: 0 <= i < lo ==> temp[i] == expected[i]
      invariant forall i :: lo <= i < |temp| ==> temp[i] == 0.0
    {
      VoxelRange(directions, mask, subject, threshold, v);
      var index, numberFixels := indexer[v, 0], indexer[v, 1];
      temp := MatchVoxel(directions, subject[v], threshold, expected, index, numberFixels, temp);
      lo := lo + |mask[v]|;
    }
  }

  /**
   * The template fixels lo .. lo+count-1 of one voxel (the offset and count
   * the indexer holds for it), matched against the subject's voxel.
   */
  method MatchVoxel(directions: seq<Vec3>, voxel: Voxel, threshold: real,
                    ghost expected: seq<real>, lo: nat, count: nat, temp: seq<real>) returns (temp': seq<real>)
    requires threshold >= 0.0 && |temp| == |directions| == |expected| && lo + count <= |directions|
    requires forall i :: lo <= i < lo + count ==> expected[i] == MatchedValue(directions[i], voxel, threshold)
    requires forall i :: 0 <= i < lo ==> temp[i] == expected[i]
    requires forall i :: lo <= i < |temp| ==> temp[i] == 0.0
    ensures |temp'| == |directions|
    ensures forall i :: 0 <= i < lo + count ==> temp'[i] == expected[i]
    ensures forall i :: lo + count <= i < |temp'| ==> temp'[i] == 0.0
  {
    temp' := temp;
    for i := lo to lo + count
      invariant |temp'| == |directions|
      invariant forall j :: 0 <= j < i ==> temp'[j] == expected[j]
      invariant forall j :: i <= j < |temp'| ==> temp'[j] == 0.0
    {
      var closest, largest := ClosestFixel(directions[i], Dirs(voxel), 0, |voxel|);
      if largest > threshold {
        temp' := temp'[i := voxel[closest].value];
      }
    }
  }

  /** The products weight times value over a row of smoothing weights. */
  function Products(row: map<nat, real>, temp: seq<real>): (r: map<nat, real>)
    requires forall k :: k in row ==> k < |temp|
    ensures r.Keys == row.Keys
  {
    map k | k in row :: Times(temp[k], row[k])
  }

  /** The smoothed value of a fixel with the given row of weights. */
  ghost function Smoothed(row: map<nat, real>, temp: seq<real>): real
    requires forall k :: k in row ==> k < |temp|
  {
    SumValues(Products(row, temp))
  }

  /** The loop over one row of smoothing weights that accumulates weight times value. */
  method SmoothValue(row: map<nat, real>, temp: seq<real>) returns (value: real)
    requires forall k :: k in row ==> k < |temp|
    ensures value == Smoothed(row, temp)
  {
    ghost var products := Products(row, temp);
    value := 0.0;
    var remaining := row.Keys;
    assert Restrict(products, remaining) == products;
    while remaining != {}
      invariant remaining <= row.Keys
      invariant value + SumValues(Restrict(products, remaining)) == SumValues(products)
      decreases |remaining|
    {
      var k :| k in remaining;
      RestrictRemove(products, remaining, k);
      SumRemove(Restrict(products, remaining), k);
      value := value + temp[k] * row[k];
      remaining := remaining - {k};
    }
    SumEmpty(Restrict(products, {}));
  }

  /** The rows of smoothing weights refer only to existing fixels. */
  ghost predicate WeightsReady(weights: seq<map<nat, real>>)
  {
    forall f, k :: 0 <= f < |weights| && k in weights[f] ==> k < |weights|
  }

  /** The smoothing loop of one subject: column subject of data is the smoothed vector. */
  method SmoothSubject(weights: seq<map<nat, real>>, temp: seq<real>, data: array2<real>, subject: nat)
    requires WeightsReady(weights) && |temp| == |weights|
    requires data.Length0 == |weights| && subject < data.Length1
    modifies data
    ensures forall f :: 0 <= f < |weights| ==> data[f, subject] == Smoothed(weights[f], temp)
    ensures forall f, s :: 0 <= f < data.Length0 && 0 <= s < data.Length1 && s != subject ==> data[f, s] == old(data[f, s])
  {
    for fixel := 0 to |weights|
      invariant forall f :: 0 <= f < fixel ==> data[f, subject] == Smoothed(weights[f], temp)
      invariant forall f, s :: 0 <= f < data.Length0 && 0 <= s < data.Length1 && (s != subject || f >= fixel) ==> data[f, s] == old(data[f, s])
    {
      var value := SmoothValue(weights[fixel], temp);
      data[fixel, subject] := value;
    }
  }

  /** The subject images are read input, so their voxel lists fit their dimensions. */
  ghost predicate SubjectsWellFormed(subjects: seq<FixelImage>)
  {
    forall s :: 0 <= s < |subjects| ==> WellFormed(subjects[s])
  }

  /** Column s of the data matrix, as the specification of both loops gives it. */
  ghost function SubjectColumn(weights: seq<map<nat, real>>, directions: seq<Vec3>, mask: seq<Voxel>, subject: seq<Voxel>,
                               threshold: real, f: nat): real
    requires threshold >= 0.0 && |directions| == Total(mask) && |subject| == |mask|
    requires WeightsReady(weights) && |weights| == |directions| && f < |weights|
  {
    Smoothed(weights[f], SubjectTemp(directions, mask, subject, threshold))
  }

  /**
   * The loading of all input images: the first subject whose dimensions do
   * not match the mask's stops the command (`check_dimensions` throws);
   * otherwise entry (f, s) of the data matrix is the smoothed matched value
   * of fixel f for subject s.
   */
  method LoadInputData(weights: seq<map<nat, real>>, directions: seq<Vec3>, maskDims: Dims, mask: seq<Voxel>,
                       indexer: array2<int>, subjects: seq<FixelImage>, threshold: real)
    returns (data: array2<real>, failed: Option<nat>)
    requires IndexerMatches(indexer, mask) && |mask| == Volume(maskDims) && SubjectsWellFormed(subjects)
    requires threshold >= 0.0 && |directions| == Total(mask)
    requires WeightsReady(weights) && |weights| == |directions|
    ensures fresh(data) && data.Length0 == |directions| && data.Length1 == |subjects|
    ensures failed.Some? ==> failed.value < |subjects| && !DimensionsMatch(subjects[failed.value].dims, maskDims)
    ensures failed.Some? ==> forall s :: 0 <= s < failed.value ==> DimensionsMatch(subjects[s].dims, maskDims)
    ensures failed.None? ==> forall s :: 0 <= s < |subjects| ==> DimensionsMatch(subjects[s].dims, maskDims)
    ensures failed.None? ==> forall f, s :: 0 <= f < |directions| && 0 <= s < |subjects| ==>
      |subjects[s].voxels| == |mask| && data[f, s] == SubjectColumn(weights, directions, mask, subjects[s].voxels, threshold, f)
  {
    data := new real[|directions|, |subjects|];
    failed := None;
    for subject := 0 to |subjects|
      invariant forall s :: 0 <= s < subject ==> DimensionsMatch(subjects[s].dims, maskDims)
      invariant forall f, s :: 0 <= f < |directions| && 0 <= s < subject ==>
        |subjects[s].voxels| == |mask| && data[f, s] == SubjectColumn(weights, directions, mask, subjects[s].voxels, threshold, f)
    {
      var image := subjects[subject];
      if !DimensionsMatch(image.dims, maskDims) {
        failed := Some(subject);
        return;
      }
      assert WellFormed(image);
      var temp := MatchSubject(directions, mask, indexer, image.voxels, threshold);
      SmoothSubject(weights, temp, data, subject);
    }
  }

  /**
   * Without smoothing every fixel's only weight is its own weight 1, and its
   * smoothed value is its matched value.
   */
  lemma SelfWeightKeepsValue(temp: seq<real>, f: nat)
    requires f < |temp|
    ensures Smoothed(map[f := 1.0], temp) == temp[f]
  {
    assert Products(map[f := 1.0], temp) == map[f := temp[f]];
    SumSingleton(f, temp[f]);
  }

  lemma TimesMonotone(x: real, y: real, w: real)
    requires x <= y && w >= 0.0
    ensures Times(x, w) <= Times(y, w)
  {
  }

  /**
   * Normalised non-negative weights make the smoothed value a convex
   * combination: it lies within the bounds of the values it combines.
   */
  lemma SmoothedWithinBounds(row: map<nat, real>, temp: seq<real>, lo: real, hi: real)
    requires forall k :: k in row ==> k < |temp| && row[k] >= 0.0 && lo <= temp[k] <= hi
    requires SumValues(row) == 1.0
    ensures lo <= Smoothed(row, temp) <= hi
  {
    var p := Products(row, temp);
    var low := map k | k in row :: Times(row[k], lo);
    var high := map k | k in row :: Times(row[k], hi);
    SumProportional(row, low, lo);
    SumProportional(row, high, hi);
    forall k | k in row
      ensures low[k] <= p[k] <= high[k]
    {
      TimesMonotone(lo, temp[k], row[k]);
      TimesMonotone(temp[k], hi, row[k]);
    }
    SumMonotone(low, p);
    SumMonotone(p, high);
  }

  /** A subject voxel with no fixel within the threshold gives its template fixels the value 0. */
  lemma UnmatchedVoxelGivesZero(directions: seq<Vec3>, mask: seq<Voxel>, subject: seq<Voxel>, threshold: real, v: nat, f: nat)
    requires threshold >= 0.0 && |directions| == Total(mask) && |subject| == |mask|
    requires v < |mask| && f < |mask[v]| && Offset(mask, v) + f < |directions|
    requires forall j :: 0 <= j < |subject[v]| ==> Dot(directions[Offset(mask, v) + f], subject[v][j].dir) == 0.0
    ensures SubjectTemp(directions, mask, subject, threshold)[Offset(mask, v) + f] == 0.0
  {
    SubjectTempAt(directions, mask, subject, threshold, v, f);
  }
}
