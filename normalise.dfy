/**
 * The pass of fixelcfestats that turns the raw connectivity matrix into the
 * TFCE connectivity and the smoothing weights. For every fixel, each entry
 * of its row is divided by the fixel's TDI; an entry below the connectivity
 * threshold is erased, any other is replaced by that fraction raised to
 * tfce_C and, when smoothing, may also give a Gaussian smoothing weight.
 * Then the fixel's own entry is inserted in both rows (`std::map::insert`,
 * which keeps an entry that is already there), and finally each row of
 * smoothing weights is divided by its sum.
 */
module Normalise {

  import opened Maps
  import opened FixelGeometry
  import opened TrackProcessing

  /** The options the pass reads: `-connectivity`, `-tfce_c` and the smoothing standard deviation. */
  datatype Settings = Settings(connectivityThreshold: real, tfceC: real, smoothStdDev: real)

  /** sqrt is positive on positive arguments and exp is positive everywhere. */
  ghost predicate PositiveRoots(m: Maths)
  {
    (forall x :: x > 0.0 ==> m.sqrt(x) > 0.0) && (forall x :: m.exp(x) > 0.0)
  }

  /** `Math::pow2` */
  function Sq(x: real): real
  {
    x * x
  }

  /** `gaussian_const1`: 1/(sigma sqrt(2 pi)) when smoothing, 1 otherwise. */
  function GaussianConst1(m: Maths, sigma: real): (r: real)
    requires PositiveRoots(m)
    ensures r > 0.0
    ensures sigma <= 0.0 ==> r == 1.0
  {
    if sigma > 0.0 then
      assert m.sqrt(2.0 * PI) > 0.0;
      1.0 / (sigma * m.sqrt(2.0 * PI))
    else 1.0
  }

  /** `gaussian_const2`: 2 sigma^2. */
  function GaussianConst2(sigma: real): real
  {
    2.0 * sigma * sigma
  }

  /** The Euclidean distance of two scanner positions. */
  function Distance(m: Maths, p: Vec3, q: Vec3): real
  {
    m.sqrt(Sq(p.x - q.x) + Sq(p.y - q.y) + Sq(p.z - q.z))
  }

  /** `connectivity`: the co-visitation count as a fraction of the fixel's TDI. */
  function Fraction(count: real, tdi: nat): real
    requires tdi > 0
  {
    count / tdi as real
  }

  /** The smoothing weight of a neighbour at distance d with connectivity c. */
  function CandidateWeight(m: Maths, s: Settings, c: real, d: real): real
    requires PositiveRoots(m) && s.smoothStdDev > 0.0
  {
    ProductPositive(s.smoothStdDev, s.smoothStdDev);
    Times(Times(c, GaussianConst1(m, s.smoothStdDev)), m.exp(-Sq(d) / GaussianConst2(s.smoothStdDev)))
  }

  lemma ProductPositive(a: real, b: real)
    requires a > 0.0 && b > 0.0
    ensures a * b > 0.0
  {
  }

  /** A row whose fixel has a TDI wherever the row has entries, and whose keys have positions. */
  ghost predicate RowReady(positions: seq<Vec3>, fixel: nat, row: map<nat, real>, tdi: nat)
  {
    fixel < |positions| && (row.Keys != {} ==> tdi > 0) && forall k :: k in row ==> k < |positions|
  }

  /**
   * The row after the loop over its entries has handled the keys in done:
   * those below the threshold are gone, the others hold the fraction raised
   * to tfce_C, and the keys not yet handled still hold their counts.
   */
  function PartlyThresholded(m: Maths, s: Settings, row: map<nat, real>, tdi: nat, done: set<nat>): map<nat, real>
    requires row.Keys != {} ==> tdi > 0
  {
    map k | k in row && (k !in done || Fraction(row[k], tdi) >= s.connectivityThreshold) ::
      if k in done then m.pow(Fraction(row[k], tdi), s.tfceC) else row[k]
  }

  /** The weight of neighbour k of fixel, from its count in the fixel's row. */
  function NeighbourWeight(m: Maths, s: Settings, positions: seq<Vec3>, fixel: nat, row: map<nat, real>, tdi: nat, k: nat): real
    requires PositiveRoots(m) && s.smoothStdDev > 0.0 && RowReady(positions, fixel, row, tdi) && k in row
  {
    CandidateWeight(m, s, Fraction(row[k], tdi), Distance(m, positions[fixel], positions[k]))
  }

  /** The smoothing weights the loop has inserted once it has handled the keys in done. */
  function PartlySmoothing(m: Maths, s: Settings, positions: seq<Vec3>, fixel: nat, row: map<nat, real>, tdi: nat, done: set<nat>): map<nat, real>
    requires PositiveRoots(m) && RowReady(positions, fixel, row, tdi)
  {
    if s.smoothStdDev > 0.0 then
      map k | k in row && k in done && Fraction(row[k], tdi) >= s.connectivityThreshold &&
        NeighbourWeight(m, s, positions, fixel, row, tdi, k) > s.connectivityThreshold ::
        NeighbourWeight(m, s, positions, fixel, row, tdi, k)
    else map[]
  }

  /**
   * Row `fixel` of the connectivity matrix after the pass. Entries are erased
   * exactly when their fraction is below the threshold, the others hold the
   * fraction raised to tfce_C (not clamped), no key but the fixel's own is
   * added, and the own entry is 1.0 only if the thresholded row had none.
   */
  function ConnRow(m: Maths, s: Settings, fixel: nat, row: map<nat, real>, tdi: nat): (r: map<nat, real>)
    requires row.Keys != {} ==> tdi > 0
    ensures fixel in r && r.Keys <= row.Keys + {fixel}
    ensures forall k :: k in row && k != fixel ==> (k in r <==> Fraction(row[k], tdi) >= s.connectivityThreshold)
    ensures forall k :: k in r && k in row && (k != fixel || Fraction(row[k], tdi) >= s.connectivityThreshold) ==>
      r[k] == m.pow(Fraction(row[k], tdi), s.tfceC)
    ensures fixel in row && Fraction(row[fixel], tdi) >= s.connectivityThreshold ==>
      r[fixel] == m.pow(Fraction(row[fixel], tdi), s.tfceC)
    ensures !(fixel in row && Fraction(row[fixel], tdi) >= s.connectivityThreshold) ==> r[fixel] == 1.0
  {
    InsertAbsent(PartlyThresholded(m, s, row, tdi, row.Keys), fixel, 1.0)
  }

  /**
   * Row `fixel` of the smoothing weights after the pass: only neighbours kept
   * in the connectivity row whose weight beats the threshold, the fixel's
   * own weight gaussian_const1 unless it was inserted as a neighbour, and
   * with no smoothing (FWHM 0) the own entry 1.0 alone.
   */
  function WeightRow(m: Maths, s: Settings, positions: seq<Vec3>, fixel: nat, row: map<nat, real>, tdi: nat): (r: map<nat, real>)
    requires PositiveRoots(m) && RowReady(positions, fixel, row, tdi)
    ensures fixel in r && r.Keys <= row.Keys + {fixel}
    ensures forall k :: k in r && k != fixel ==> k in ConnRow(m, s, fixel, row, tdi)
    ensures forall k :: k in r && k != fixel ==> s.smoothStdDev > 0.0 && r[k] > s.connectivityThreshold
    ensures s.smoothStdDev > 0.0 ==> forall k :: k in row && k != fixel ==>
      (k in r <==> (Fraction(row[k], tdi) >= s.connectivityThreshold &&
                    NeighbourWeight(m, s, positions, fixel, row, tdi, k) > s.connectivityThreshold))
    ensures forall k :: k in r && k != fixel ==>
      s.smoothStdDev > 0.0 && k in row && r[k] == NeighbourWeight(m, s, positions, fixel, row, tdi, k)
    ensures (s.smoothStdDev > 0.0 && fixel in row && Fraction(row[fixel], tdi) >= s.connectivityThreshold &&
             NeighbourWeight(m, s, positions, fixel, row, tdi, fixel) > s.connectivityThreshold) ==>
      r[fixel] == NeighbourWeight(m, s, positions, fixel, row, tdi, fixel)
    ensures !(s.smoothStdDev > 0.0 && fixel in row && Fraction(row[fixel], tdi) >= s.connectivityThreshold &&
              NeighbourWeight(m, s, positions, fixel, row, tdi, fixel) > s.connectivityThreshold) ==>
      r[fixel] == GaussianConst1(m, s.smoothStdDev)
    ensures s.smoothStdDev <= 0.0 ==> r == map[fixel := 1.0]
  {
    InsertAbsent(PartlySmoothing(m, s, positions, fixel, row, tdi, row.Keys), fixel, GaussianConst1(m, s.smoothStdDev))
  }

  /**
   * The body of the loop over fixels: the iteration over the row that erases
   * or rescales each entry and inserts the smoothing weights, then the two
   * self insertions.
   */
  method NormaliseRow(m: Maths, s: Settings, positions: seq<Vec3>, fixel: nat, row: map<nat, real>, tdi: nat)
    returns (connRow: map<nat, real>, weightRow: map<nat, real>)
    requires PositiveRoots(m) && RowReady(positions, fixel, row, tdi)
    ensures connRow == ConnRow(m, s, fixel, row, tdi)
    ensures weightRow == WeightRow(m, s, positions, fixel, row, tdi)
  {
    connRow, weightRow := ScanRow(m, s, positions, fixel, row, tdi);
    connRow := InsertAbsent(connRow, fixel, 1.0);
    weightRow := InsertAbsent(weightRow, fixel, GaussianConst1(m, s.smoothStdDev));
  }

  /** The iteration over the entries of a row, which erases entries as it goes. */
  method ScanRow(m: Maths, s: Settings, positions: seq<Vec3>, fixel: nat, row: map<nat, real>, tdi: nat)
    returns (connRow: map<nat, real>, weightRow: map<nat, real>)
    requires PositiveRoots(m) && RowReady(positions, fixel, row, tdi)
    ensures connRow == PartlyThresholded(m, s, row, tdi, row.Keys)
    ensures weightRow == PartlySmoothing(m, s, positions, fixel, row, tdi, row.Keys)
  {
    connRow, weightRow := row, map[];
    var remaining := row.Keys;
    assert row.Keys - remaining == {};
    assert connRow == PartlyThresholded(m, s, row, tdi, {});
    while remaining != {}
      invariant remaining <= row.Keys
      invariant connRow == PartlyThresholded(m, s, row, tdi, row.Keys - remaining)
      invariant weightRow == PartlySmoothing(m, s, positions, fixel, row, tdi, row.Keys - remaining)
      decreases |remaining|
    {
      var k :| k in remaining;
      ghost var done := row.Keys - remaining;
      connRow, weightRow := VisitEntry(m, s, positions, fixel, row, tdi, done, connRow, weightRow, k);
      remaining := remaining - {k};
      assert row.Keys - remaining == done + {k};
    }
    assert row.Keys - remaining == row.Keys;
  }

  /** One entry of the iteration over a row: erase it, or rescale it and maybe insert its weight. */
  method VisitEntry(m: Maths, s: Settings, positions: seq<Vec3>, fixel: nat, row: map<nat, real>, tdi: nat,
                    ghost done: set<nat>, connRow: map<nat, real>, weightRow: map<nat, real>, k: nat)
    returns (connRow': map<nat, real>, weightRow': map<nat, real>)
    requires PositiveRoots(m) && RowReady(positions, fixel, row, tdi)
    requires k in row && k !in done
    requires connRow == PartlyThresholded(m, s, row, tdi, done)
    requires weightRow == PartlySmoothing(m, s, positions, fixel, row, tdi, done)
    ensures connRow' == PartlyThresholded(m, s, row, tdi, done + {k})
    ensures weightRow' == PartlySmoothing(m, s, positions, fixel, row, tdi, done + {k})
  {
    ThresholdStep(m, s, row, tdi, done, k);
    SmoothingStep(m, s, positions, fixel, row, tdi, done, k);
    connRow', weightRow' := connRow, weightRow;
    var connectivity := Fraction(connRow[k], tdi);
    if connectivity < s.connectivityThreshold {
      connRow' := connRow - {k};
    } else {
      if s.smoothStdDev > 0.0 {
        var weight := CandidateWeight(m, s, connectivity, Distance(m, positions[fixel], positions[k]));
        if weight > s.connectivityThreshold {
          weightRow' := InsertAbsent(weightRow, k, weight);
        }
      }
      connRow' := connRow[k := m.pow(connectivity, s.tfceC)];
    }
  }

  lemma ThresholdStep(m: Maths, s: Settings, row: map<nat, real>, tdi: nat, done: set<nat>, k: nat)
    requires row.Keys != {} ==> tdi > 0
    requires k in row && k !in done
    ensures k in PartlyThresholded(m, s, row, tdi, done) && PartlyThresholded(m, s, row, tdi, done)[k] == row[k]
    ensures PartlyThresholded(m, s, row, tdi, done + {k}) ==
      if Fraction(row[k], tdi) < s.connectivityThreshold then PartlyThresholded(m, s, row, tdi, done) - {k}
      else PartlyThresholded(m, s, row, tdi, done)[k := m.pow(Fraction(row[k], tdi), s.tfceC)]
  {
  }

  lemma SmoothingStep(m: Maths, s: Settings, positions: seq<Vec3>, fixel: nat, row: map<nat, real>, tdi: nat, done: set<nat>, k: nat)
    requires PositiveRoots(m) && RowReady(positions, fixel, row, tdi)
    requires k in row && k !in done
    ensures k !in PartlySmoothing(m, s, positions, fixel, row, tdi, done)
    ensures PartlySmoothing(m, s, positions, fixel, row, tdi, done + {k}) ==
      if s.smoothStdDev > 0.0 && Fraction(row[k], tdi) >= s.connectivityThreshold &&
        NeighbourWeight(m, s, positions, fixel, row, tdi, k) > s.connectivityThreshold
      then PartlySmoothing(m, s, positions, fixel, row, tdi, done)[k := NeighbourWeight(m, s, positions, fixel, row, tdi, k)]
      else PartlySmoothing(m, s, positions, fixel, row, tdi, done)
  {
  }

  /**
   * The loop over all fixels (lines 337-362): row f of the connectivity
   * matrix becomes ConnRow and row f of the smoothing weights WeightRow.
   * The TDI is positive wherever a row has entries by the invariant the
   * track processing keeps.
   */
  method NormaliseAndThreshold(m: Maths, s: Settings, positions: seq<Vec3>, tdi: seq<nat>, conn: seq<map<nat, real>>)
    returns (conn': seq<map<nat, real>>, weights: seq<map<nat, real>>)
    requires PositiveRoots(m) && ConnectivityInvariant(tdi, conn) && |positions| == |conn|
    ensures |conn'| == |conn| && |weights| == |conn|
    ensures forall f :: 0 <= f < |conn| ==> conn'[f] == ConnRow(m, s, f, conn[f], tdi[f])
    ensures forall f :: 0 <= f < |conn| ==> weights[f] == WeightRow(m, s, positions, f, conn[f], tdi[f])
  {
    conn', weights := conn, EmptyRows(|conn|);
    for fixel := 0 to |conn|
      invariant |conn'| == |conn| && |weights| == |conn|
      invariant forall f :: 0 <= f < fixel ==> conn'[f] == ConnRow(m, s, f, conn[f], tdi[f])
      invariant forall f :: 0 <= f < fixel ==> weights[f] == WeightRow(m, s, positions, f, conn[f], tdi[f])
      invariant forall f :: fixel <= f < |conn| ==> conn'[f] == conn[f]
    {
      var connRow, weightRow := NormaliseRow(m, s, positions, fixel, conn'[fixel], tdi[fixel]);
      conn' := conn'[fixel := connRow];
      weights := weights[fixel := weightRow];
    }
  }

  /** A row with every value multiplied by c. */
  function Scaled(row: map<nat, real>, c: real): (r: map<nat, real>)
    ensures r.Keys == row.Keys
  {
    map k | k in row :: Times(row[k], c)
  }

  /**
   * A row of smoothing weights after lines 366-373: divided by its sum. A
   * row summing to 0 divides by zero in the source; the model leaves it.
   */
  ghost function NormalisedWeights(row: map<nat, real>): map<nat, real>
  {
    if SumValues(row) == 0.0 then row else Scaled(row, 1.0 / SumValues(row))
  }

  /** The first inner loop of the weight normalisation: the sum of the row. */
  method RowSum(row: map<nat, real>) returns (sum: real)
    ensures sum == SumValues(row)
  {
    sum := 0.0;
    var remaining := row.Keys;
    assert Restrict(row, remaining) == row;
    while remaining != {}
      invariant remaining <= row.Keys
      invariant sum + SumValues(Restrict(row, remaining)) == SumValues(row)
      decreases |remaining|
    {
      var k :| k in remaining;
      RestrictRemove(row, remaining, k);
      SumRemove(Restrict(row, remaining), k);
      sum := sum + row[k];
      remaining := remaining - {k};
    }
    SumEmpty(Restrict(row, {}));
  }

  /** The second inner loop: every value multiplied by the norm factor, in place. */
  method ScaleRow(row: map<nat, real>, factor: real) returns (r: map<nat, real>)
    ensures r == Scaled(row, factor)
  {
    r := row;
    var remaining := row.Keys;
    while remaining != {}
      invariant remaining <= row.Keys && r.Keys == row.Keys
      invariant forall k :: k in row ==> r[k] == if k in remaining then row[k] else Times(row[k], factor)
      decreases |remaining|
    {
      var k :| k in remaining;
      r := r[k := Times(r[k], factor)];
      remaining := remaining - {k};
    }
  }

  /** Lines 366-373: every row of smoothing weights divided by its sum. */
  method NormaliseWeights(weights: seq<map<nat, real>>) returns (weights': seq<map<nat, real>>)
    ensures |weights'| == |weights|
    ensures forall f :: 0 <= f < |weights| ==> weights'[f] == NormalisedWeights(weights[f])
  {
    weights' := weights;
    for fixel := 0 to |weights|
      invariant |weights'| == |weights|
      invariant forall f :: 0 <= f < fixel ==> weights'[f] == NormalisedWeights(weights[f])
      invariant forall f :: fixel <= f < |weights| ==> weights'[f] == weights[f]
    {
      var sum := RowSum(weights'[fixel]);
      if sum != 0.0 {
        var row := ScaleRow(weights'[fixel], 1.0 / sum);
        weights' := weights'[fixel := row];
      }
    }
  }

  /** A normalised row sums to 1 and keeps its keys. */
  lemma NormalisedSumsToOne(row: map<nat, real>)
    requires SumValues(row) != 0.0
    ensures NormalisedWeights(row).Keys == row.Keys
    ensures SumValues(NormalisedWeights(row)) == 1.0
  {
    var c := 1.0 / SumValues(row);
    SumProportional(row, Scaled(row, c), c);
  }

  /** Normalising keeps the ratios of the weights of a row. */
  lemma NormalisedRatios(row: map<nat, real>, j: nat, k: nat)
    requires j in row && k in row
    ensures NormalisedWeights(row)[j] * row[k] == NormalisedWeights(row)[k] * row[j]
  {
    if SumValues(row) != 0.0 {
      Commute(row[j], row[k], 1.0 / SumValues(row));
    }
  }

  lemma Commute(x: real, y: real, c: real)
    ensures Times(x, c) * y == Times(y, c) * x
  {
  }

  /**
   * With a non-negative threshold every smoothing weight is positive, so no
   * row sums to 0 and every row is divided by its sum.
   */
  lemma WeightsPositive(m: Maths, s: Settings, positions: seq<Vec3>, fixel: nat, row: map<nat, real>, tdi: nat)
    requires PositiveRoots(m) && RowReady(positions, fixel, row, tdi) && s.connectivityThreshold >= 0.0
    ensures forall k :: k in WeightRow(m, s, positions, fixel, row, tdi) ==> WeightRow(m, s, positions, fixel, row, tdi)[k] > 0.0
    ensures SumValues(WeightRow(m, s, positions, fixel, row, tdi)) > 0.0
  {
    var r := WeightRow(m, s, positions, fixel, row, tdi);
    forall k | k in r
      ensures r[k] > 0.0
    {
      if k == fixel && fixel in PartlySmoothing(m, s, positions, fixel, row, tdi, row.Keys) {
        assert r[k] > s.connectivityThreshold;
      }
    }
    SumPositive(r);
  }

  /** With no smoothing (FWHM 0) every fixel's normalised weights are its own weight 1.0 alone. */
  lemma NoSmoothingSelfOnly(m: Maths, s: Settings, positions: seq<Vec3>, fixel: nat, row: map<nat, real>, tdi: nat)
    requires PositiveRoots(m) && RowReady(positions, fixel, row, tdi) && s.smoothStdDev <= 0.0
    ensures NormalisedWeights(WeightRow(m, s, positions, fixel, row, tdi)) == map[fixel := 1.0]
  {
    SumSingleton(fixel, 1.0);
    assert Scaled(map[fixel := 1.0], 1.0 / 1.0) == map[fixel := 1.0];
  }

  /**
   * Values are not clamped to 1: one streamline that meets fixel 0 three
   * times gives it TDI 3 and diagonal count 6, so its own connectivity is
   * the fraction 2 raised to tfce_C.
   */
  lemma FractionAboveOne(m: Maths, s: Settings)
    requires s.connectivityThreshold <= 2.0
    ensures AddVisits([0], [0, 0, 0])[0] == 3
    ensures AddPairCounts([map[]], Pairs([0, 0, 0]))[0] == map[0 := 6.0]
    ensures ConnRow(m, s, 0, map[0 := 6.0], 3) == map[0 := m.pow(2.0, s.tfceC)]
  {
    VisitsCount([0], [0, 0, 0], 0);
    TripleCount();
    TripleRow();
    assert Fraction(6.0, 3) == 2.0;
  }

  lemma TripleCount()
    ensures Count([0, 0, 0], 0) == 3
  {
    assert [0, 0, 0][..2] == [0, 0];
    assert [0, 0][..1] == [0];
    assert [0][..0] == [];
  }

  lemma TripleRow()
    ensures AddPairCounts([map[]], Pairs([0, 0, 0]))[0] == map[0 := 6.0]
  {
    TripleCount();
    RepeatedRow([0, 0, 0], 0, 3);
  }

  /** A streamline that meets only fixel a, n >= 2 times, fills a's row with the single count n(n - 1). */
  lemma RepeatedRow(l: seq<nat>, a: nat, n: nat)
    requires n >= 2 && Count(l, a) == n
    requires forall i :: 0 <= i < |l| ==> l[i] == a
    ensures AddRow(map[], a, Pairs(l)) == map[a := (n * (n - 1)) as real]
  {
    var row := AddRow(map[], a, Pairs(l));
    forall k | k in row
      ensures k == a
    {
      GetAddRow(map[], a, Pairs(l), k);
      PairsMembers(l, a, k);
    }
    PairsCount(l, a, a);
    GetAddRow(map[], a, Pairs(l), a);
    assert row.Keys == {a};
  }
}
