/**
 * `TrackProcessor` of fixelcfestats: each streamline, given as the ordered
 * set of its dixels (voxel, tangent direction), is mapped to the list of
 * template fixels it traverses; every traversal adds one to the fixel's
 * track density (TDI), and every pair of positions of that list adds one
 * co-visitation count in both directions of the fixel-fixel connectivity
 * matrix.
 *
 * The counts the pair loops add are described by a multiset of ordered
 * fixel pairs, Pairs(l); the matrix after a streamline is the matrix before
 * plus those counts.
 */
module TrackProcessing {

  import opened Wrappers
  import opened Maps
  import opened FixelGeometry
  import opened FixelIndex
  import opened Seqs

  /** One element of a `SetVoxelDir`: a voxel (its row in the indexer) and a tangent. */
  datatype Dixel = Dixel(voxel: nat, dir: Vec3)

  /** The pairs (x, s[j]) and (s[j], x) for every position j of s. */
  function Cross(x: nat, s: seq<nat>): multiset<(nat, nat)>
  {
    if |s| == 0 then multiset{}
    else Cross(x, s[..|s| - 1]) + multiset{(x, s[|s| - 1])} + multiset{(s[|s| - 1], x)}
  }

  /** The pairs the loops over i < j add: (l[i], l[j]) and (l[j], l[i]). */
  function Pairs(l: seq<nat>): multiset<(nat, nat)>
  {
    if |l| == 0 then multiset{} else Cross(l[0], l[1..]) + Pairs(l[1..])
  }

  /** The pairs the outer loop has added after i iterations. */
  function PairsUpTo(l: seq<nat>, i: nat): multiset<(nat, nat)>
    requires i <= |l|
  {
    if i == 0 then multiset{} else PairsUpTo(l, i - 1) + Cross(l[i - 1], l[i..])
  }

  function Zeros(n: nat): (r: seq<nat>)
    ensures |r| == n && forall i :: 0 <= i < n ==> r[i] == 0
  {
    seq(n, _ => 0)
  }

  function EmptyRows(n: nat): (r: seq<map<nat, real>>)
    ensures |r| == n && forall i :: 0 <= i < n ==> r[i] == map[]
  {
    seq(n, _ => map[])
  }

  /** The number of occurrences of f in l. */
  function Count(l: seq<nat>, f: nat): nat
  {
    if |l| == 0 then 0 else Count(l[..|l| - 1], f) + if l[|l| - 1] == f then 1 else 0
  }

  /** TDI after the visits of l, one increment per position of l, in order. */
  function AddVisits(tdi: seq<nat>, l: seq<nat>): (r: seq<nat>)
    ensures |r| == |tdi|
  {
    if |l| == 0 then tdi
    else
      var r := AddVisits(tdi, l[..|l| - 1]);
      var f := l[|l| - 1];
      if f < |r| then r[f := r[f] + 1] else r
  }

  /** The partners of fixel a among the pairs of ms. */
  function Partners(ms: multiset<(nat, nat)>, a: nat): set<nat>
  {
    set p | p in ms && p.0 == a :: p.1
  }

  /** Row a of the matrix after adding the counts of ms. */
  function AddRow(row: map<nat, real>, a: nat, ms: multiset<(nat, nat)>): map<nat, real>
  {
    map b | b in row.Keys + Partners(ms, a) :: Get(row, b) + ms[(a, b)] as real
  }

  /** The matrix after adding the counts of ms. */
  function AddPairCounts(conn: seq<map<nat, real>>, ms: multiset<(nat, nat)>): (r: seq<map<nat, real>>)
    ensures |r| == |conn|
  {
    seq(|conn|, a requires 0 <= a < |conn| => AddRow(conn[a], a, ms))
  }

  /** `connectivity_matrix[a][b].value++`: operator[] creates a zero entry when b is absent. */
  function Inc(row: map<nat, real>, b: nat): (r: map<nat, real>)
    ensures r.Keys == row.Keys + {b} && r[b] == Get(row, b) + 1.0
    ensures forall k :: k in row && k != b ==> r[k] == row[k]
  {
    row[b := Get(row, b) + 1.0]
  }

  /**
   * The invariant of the matrix under construction: rows and TDI have one
   * entry per fixel, keys are fixel indices, counts are symmetric, and a
   * fixel with any entry in its row has been visited.
   */
  ghost predicate ConnectivityInvariant(tdi: seq<nat>, conn: seq<map<nat, real>>)
  {
    |tdi| == |conn| &&
    (forall a, b :: 0 <= a < |conn| && b in conn[a] ==> b < |conn| && tdi[a] > 0) &&
    (forall a, b :: 0 <= a < |conn| && 0 <= b < |conn| ==> Get(conn[a], b) == Get(conn[b], a))
  }

  /** `angle` is limited to [0, 90] degrees, where cos is non-negative. */
  ghost predicate CosNonNegativeToRightAngle(m: Maths)
  {
    forall x :: 0.0 <= x <= PI / 2.0 ==> m.cos(x) >= 0.0
  }

  class TrackProcessor {
    const indexer: array2<int>
    const directions: seq<Vec3>
    const angularThresholdDp: real
    const maths: Maths
    var fixelTDI: seq<nat>
    var connectivity: seq<map<nat, real>>

    /**
     * Indexer rows hold a non-negative count and, where the offset is set, a
     * range inside `directions`; the threshold is non-negative.
     */
    ghost predicate IndexValid()
      reads indexer
    {
      indexer.Length1 == 2 && angularThresholdDp >= 0.0 &&
      forall v {:trigger indexer[v, 0]} :: 0 <= v < indexer.Length0 ==>
        indexer[v, 1] >= 0 && (indexer[v, 0] >= 0 ==> indexer[v, 0] + indexer[v, 1] <= |directions|)
    }

    /** One TDI entry and one matrix row per fixel. */
    ghost predicate Valid()
      reads this, indexer
    {
      IndexValid() && |fixelTDI| == |directions| && |connectivity| == |directions|
    }

    /**
     * The processor over the index, with zero TDI and an empty row for every
     * fixel, as `run()` creates them.
     */
    constructor (indexer: array2<int>, directions: seq<Vec3>, angularThreshold: real, maths: Maths)
      requires indexer.Length1 == 2
      requires forall v {:trigger indexer[v, 0]} :: 0 <= v < indexer.Length0 ==>
        indexer[v, 1] >= 0 && (indexer[v, 0] >= 0 ==> indexer[v, 0] + indexer[v, 1] <= |directions|)
      requires 0.0 <= angularThreshold <= 90.0 && CosNonNegativeToRightAngle(maths)
      ensures Valid()
      ensures this.indexer == indexer && this.directions == directions && this.maths == maths
      ensures angularThresholdDp == AngularThresholdDp(maths, angularThreshold)
      ensures fixelTDI == Zeros(|directions|) && connectivity == EmptyRows(|directions|)
    {
      this.indexer := indexer;
      this.directions := directions;
      this.maths := maths;
      assert angularThreshold * (PI / 180.0) <= PI / 2.0;
      angularThresholdDp := AngularThresholdDp(maths, angularThreshold);
      fixelTDI := Zeros(|directions|);
      connectivity := EmptyRows(|directions|);
    }

    ghost predicate InImage(dixels: seq<Dixel>)
    {
      forall i :: 0 <= i < |dixels| ==> dixels[i].voxel < indexer.Length0
    }

    /**
     * The fixel a dixel is assigned to: none when its voxel has no offset or
     * no fixel of the voxel is within the angular threshold of its
     * normalised tangent, otherwise the nearest fixel.
     */
    function Assigned(d: Dixel): (r: Option<nat>)
      reads indexer
      requires IndexValid() && d.voxel < indexer.Length0
      ensures r.Some? ==> r.value < |directions|
      ensures indexer[d.voxel, 0] < 0 ==> r == None
    {
      var first := indexer[d.voxel, 0];
      if first < 0 then None
      else Match(Normalised(maths, d.dir), directions, first, first + indexer[d.voxel, 1], angularThresholdDp)
    }

    /** `tract_fixel_indices`: the fixel fixels of the dixels, in order. */
    function TractFixels(dixels: seq<Dixel>): (r: seq<nat>)
      reads indexer
      requires IndexValid() && InImage(dixels)
      ensures |r| <= |dixels|
      ensures forall i :: 0 <= i < |r| ==> r[i] < |directions|
    {
      if |dixels| == 0 then []
      else
        var init := TractFixels(dixels[..|dixels| - 1]);
        match Assigned(dixels[|dixels| - 1])
        case None => init
        case Some(f) => init + [f]
    }

    /**
     * `operator()`: assigns the dixels of one streamline to fixels, counts
     * each assignment in the TDI and each pair of assignments in both
     * directions of the connectivity matrix.
     */
    method Process(dixels: seq<Dixel>)
      requires Valid() && InImage(dixels)
      modifies this`fixelTDI, this`connectivity
      ensures Valid()
      ensures fixelTDI == AddVisits(old(fixelTDI), TractFixels(dixels))
      ensures connectivity == AddPairCounts(old(connectivity), Pairs(TractFixels(dixels)))
    {
      var tract := AssignAll(dixels);
      PairCounts(tract);
    }

    /** The loop over the dixels: the tract's fixel list, and its visits counted in the TDI. */
    method AssignAll(dixels: seq<Dixel>) returns (tract: seq<nat>)
      requires Valid() && InImage(dixels)
      modifies this`fixelTDI
      ensures Valid()
      ensures tract == TractFixels(dixels)
      ensures fixelTDI == AddVisits(old(fixelTDI), tract)
    {
      tract := [];
      AddVisitsEmpty(fixelTDI);
      for i := 0 to |dixels|
        invariant |fixelTDI| == |directions|
        invariant tract == TractFixels(dixels[..i])
        invariant fixelTDI == AddVisits(old(fixelTDI), tract)
      {
        TractStep(dixels, i);
        var fixel := AssignDixel(dixels[i]);
        if fixel.Some? {
          CountVisit(old(fixelTDI), tract, fixel.value);
          tract := tract + [fixel.value];
        }
      }
      assert dixels[..|dixels|] == dixels;
    }

    /** `fixel_TDI[closest_fixel_index]++`, stated as one more visit of the tract. */
    method CountVisit(ghost tdi: seq<nat>, ghost tract: seq<nat>, f: nat)
      requires fixelTDI == AddVisits(tdi, tract) && f < |fixelTDI|
      modifies this`fixelTDI
      ensures fixelTDI == AddVisits(tdi, tract + [f])
    {
      AddVisitStep(tdi, tract, f);
      fixelTDI := fixelTDI[f := fixelTDI[f] + 1];
    }

    /** The body of the dixel loop: the voxel's fixel range scanned for the nearest fixel. */
    method AssignDixel(d: Dixel) returns (fixel: Option<nat>)
      requires IndexValid() && d.voxel < indexer.Length0
      ensures fixel == Assigned(d)
    {
      var first := indexer[d.voxel, 0];
      if first < 0 {
        return None;
      }
      var last := first + indexer[d.voxel, 1];
      var closest, largest := ClosestFixel(Normalised(maths, d.dir), directions, first, last);
      if largest > angularThresholdDp {
        fixel := Some(closest as nat);
      } else {
        fixel := None;
      }
    }

    lemma TractStep(dixels: seq<Dixel>, i: nat)
      requires IndexValid() && InImage(dixels) && i < |dixels|
      ensures TractFixels(dixels[..i + 1]) == TractFixels(dixels[..i]) + match Assigned(dixels[i]) case None => [] case Some(f) => [f]
    {
      assert dixels[..i + 1][..i] == dixels[..i];
    }

    /** The two nested loops over the position pairs i < j of the tract. */
    method PairCounts(tract: seq<nat>)
      requires Valid() && forall i :: 0 <= i < |tract| ==> tract[i] < |directions|
      modifies this`connectivity
      ensures Valid()
      ensures connectivity == AddPairCounts(old(connectivity), Pairs(tract))
    {
      AddPairCountsEmpty(connectivity);
      for i := 0 to |tract|
        invariant Valid()
        invariant connectivity == AddPairCounts(old(connectivity), PairsUpTo(tract, i))
      {
        PairsFrom(old(connectivity), tract, i);
      }
      PairsUpToAll(tract);
    }

    /**
     * The inner loop for position i: the pairs of tract[i] with every
     * later position, which completes the outer loop's i-th iteration.
     */
    method PairsFrom(ghost conn: seq<map<nat, real>>, tract: seq<nat>, i: nat)
      requires Valid() && i < |tract| && forall k :: 0 <= k < |tract| ==> tract[k] < |directions|
      requires connectivity == AddPairCounts(conn, PairsUpTo(tract, i))
      modifies this`connectivity
      ensures Valid()
      ensures connectivity == AddPairCounts(conn, PairsUpTo(tract, i + 1))
    {
      PairsWith(tract[i], tract[i + 1..]);
      PairsUpToStep(conn, tract, i);
    }

    /** The loop over the later positions: each adds both directions of one pair. */
    method PairsWith(a: nat, later: seq<nat>)
      requires Valid() && a < |directions| && forall j :: 0 <= j < |later| ==> later[j] < |directions|
      modifies this`connectivity
      ensures Valid()
      ensures connectivity == AddPairCounts(old(connectivity), Cross(a, later))
    {
      AddPairCountsEmpty(connectivity);
      for j := 0 to |later|
        invariant Valid()
        invariant connectivity == AddPairCounts(old(connectivity), Cross(a, later[..j]))
      {
        var b := later[j];
        assert later[..j + 1][..j] == later[..j];
        AddPairStep(old(connectivity), Cross(a, later[..j]), a, b);
        connectivity := connectivity[a := Inc(connectivity[a], b)];
        AddPairStep(old(connectivity), Cross(a, later[..j]) + multiset{(a, b)}, b, a);
        connectivity := connectivity[b := Inc(connectivity[b], a)];
      }
      assert later[..|later|] == later;
    }

    /** The fixels each streamline is assigned, one list per streamline. */
    function Tracts(tracks: seq<seq<Dixel>>): (r: seq<seq<nat>>)
      reads indexer
      requires IndexValid() && forall t :: 0 <= t < |tracks| ==> InImage(tracks[t])
      ensures |r| == |tracks|
      ensures forall t :: 0 <= t < |r| ==> r[t] == TractFixels(tracks[t])
    {
      if |tracks| == 0 then []
      else
        var init := tracks[..|tracks| - 1];
        assert forall t :: 0 <= t < |init| ==> init[t] == tracks[t];
        var r, last := Tracts(init), TractFixels(tracks[|tracks| - 1]);
        assert forall t :: 0 <= t < |init| ==> (r + [last])[t] == r[t];
        r + [last]
    }

    /**
     * The queue that feeds every streamline of the track file to the
     * processor, as a sequential fold: the TDI counts the visits of all
     * streamlines, the matrix holds the pair counts of all streamlines, and
     * the invariant the normalisation needs survives every streamline.
     */
    method ProcessAll(tracks: seq<seq<Dixel>>)
      requires Valid() && forall t :: 0 <= t < |tracks| ==> InImage(tracks[t])
      modifies this`fixelTDI, this`connectivity
      ensures Valid()
      ensures fixelTDI == AddVisits(old(fixelTDI), Concat(Tracts(tracks)))
      ensures connectivity == AddPairCounts(old(connectivity), SumPairs(Tracts(tracks)))
      ensures ConnectivityInvariant(old(fixelTDI), old(connectivity)) ==> ConnectivityInvariant(fixelTDI, connectivity)
    {
      ghost var tdi, conn, done := fixelTDI, connectivity, [];
      AddPairCountsEmpty(conn);
      AddVisitsEmpty(tdi);
      for t := 0 to |tracks|
        invariant Valid()
        invariant done == Tracts(tracks[..t])
        invariant fixelTDI == AddVisits(tdi, Concat(done))
        invariant connectivity == AddPairCounts(conn, SumPairs(done))
        invariant ConnectivityInvariant(tdi, conn) ==> ConnectivityInvariant(fixelTDI, connectivity)
      {
        TractsStep(tracks, t);
        ProcessNext(tdi, conn, done, tracks[t]);
        done := done + [TractFixels(tracks[t])];
      }
      assert tracks[..|tracks|] == tracks;
    }

    lemma TractsStep(tracks: seq<seq<Dixel>>, t: nat)
      requires IndexValid() && t < |tracks| && forall u :: 0 <= u < |tracks| ==> InImage(tracks[u])
      ensures forall u :: 0 <= u < t ==> InImage(tracks[..t][u])
      ensures Tracts(tracks[..t + 1]) == Tracts(tracks[..t]) + [TractFixels(tracks[t])]
    {
      assert tracks[..t + 1][..t] == tracks[..t];
    }

    /**
     * One turn of the queue: a streamline is processed after those whose
     * fixel lists are init.
     */
    method ProcessNext(ghost tdi: seq<nat>, ghost conn: seq<map<nat, real>>, ghost init: seq<seq<nat>>, dixels: seq<Dixel>)
      requires Valid() && InImage(dixels)
      requires fixelTDI == AddVisits(tdi, Concat(init))
      requires connectivity == AddPairCounts(conn, SumPairs(init))
      requires ConnectivityInvariant(tdi, conn) ==> ConnectivityInvariant(fixelTDI, connectivity)
      modifies this`fixelTDI, this`connectivity
      ensures Valid()
      ensures fixelTDI == AddVisits(tdi, Concat(init + [TractFixels(dixels)]))
      ensures connectivity == AddPairCounts(conn, SumPairs(init + [TractFixels(dixels)]))
      ensures ConnectivityInvariant(tdi, conn) ==> ConnectivityInvariant(fixelTDI, connectivity)
    {
      AppendTract(tdi, conn, init, TractFixels(dixels));
      Process(dixels);
    }
  }

  /** The indexer BuildIndex produces is one the processor accepts. */
  lemma BuiltIndexerValid(indexer: array2<int>, mask: seq<Voxel>, directions: seq<Vec3>)
    requires IndexerMatches(indexer, mask) && |directions| == Total(mask)
    ensures forall v {:trigger indexer[v, 0]} :: 0 <= v < indexer.Length0 ==>
      indexer[v, 1] >= 0 && (indexer[v, 0] >= 0 ==> indexer[v, 0] + indexer[v, 1] <= |directions|)
  {
    forall v | 0 <= v < indexer.Length0
      ensures indexer[v, 0] + indexer[v, 1] <= |directions|
    {
      OffsetBound(mask, v);
    }
  }

  lemma AddVisitStep(tdi: seq<nat>, l: seq<nat>, f: nat)
    requires f < |tdi|
    ensures AddVisits(tdi, l + [f]) == AddVisits(tdi, l)[f := AddVisits(tdi, l)[f] + 1]
  {
    assert (l + [f])[..|l|] == l;
  }

  /** Each fixel's TDI grows by the number of its occurrences in l. */
  lemma {:induction false} VisitsCount(tdi: seq<nat>, l: seq<nat>, f: nat)
    requires f < |tdi|
    ensures AddVisits(tdi, l)[f] == tdi[f] + Count(l, f)
    decreases |l|
  {
    if |l| > 0 {
      VisitsCount(tdi, l[..|l| - 1], f);
    }
  }

  /** Visits of consecutive streamlines add up. */
  lemma AddVisitsAppend(tdi: seq<nat>, l1: seq<nat>, l2: seq<nat>)
    ensures AddVisits(AddVisits(tdi, l1), l2) == AddVisits(tdi, l1 + l2)
  {
    var lhs, rhs := AddVisits(AddVisits(tdi, l1), l2), AddVisits(tdi, l1 + l2);
    forall f | 0 <= f < |tdi|
      ensures lhs[f] == rhs[f]
    {
      VisitsCount(AddVisits(tdi, l1), l2, f);
      VisitsCount(tdi, l1, f);
      VisitsCount(tdi, l1 + l2, f);
      CountAppend(l1, l2, f);
    }
  }

  /** One iteration of the outer loop adds the pairs of position i with the later ones. */
  lemma PairsUpToStep(conn: seq<map<nat, real>>, tract: seq<nat>, i: nat)
    requires i < |tract|
    ensures AddPairCounts(AddPairCounts(conn, PairsUpTo(tract, i)), Cross(tract[i], tract[i + 1..])) == AddPairCounts(conn, PairsUpTo(tract, i + 1))
  {
    AddPairCountsUnion(conn, PairsUpTo(tract, i), Cross(tract[i], tract[i + 1..]));
  }

  /** The outer loop's pairs, once it is done, are all the pairs. */
  lemma PairsUpToAll(l: seq<nat>)
    ensures PairsUpTo(l, |l|) == Pairs(l)
  {
    PairsUpToRest(l, |l|);
    assert l[|l|..] == [];
  }

  lemma {:induction false} PairsUpToRest(l: seq<nat>, i: nat)
    requires i <= |l|
    ensures PairsUpTo(l, i) + Pairs(l[i..]) == Pairs(l)
    decreases i
  {
    if i == 0 {
      assert l[0..] == l;
    } else {
      PairsUpToRest(l, i - 1);
      assert l[i - 1..][1..] == l[i..];
    }
  }

  lemma AddVisitsEmpty(tdi: seq<nat>)
    ensures AddVisits(tdi, []) == tdi
  {
  }

  lemma AddPairCountsEmpty(conn: seq<map<nat, real>>)
    ensures AddPairCounts(conn, multiset{}) == conn
  {
    forall a | 0 <= a < |conn|
      ensures AddRow(conn[a], a, multiset{}) == conn[a]
    {
      assert Partners(multiset{}, a) == {};
    }
  }

  lemma PartnersAdd(ms: multiset<(nat, nat)>, a: nat, b: nat, c: nat)
    ensures Partners(ms + multiset{(a, b)}, c) == if c == a then Partners(ms, c) + {b} else Partners(ms, c)
  {
    if c == a {
      assert (a, b) in ms + multiset{(a, b)};
    }
  }

  lemma RowStep(row: map<nat, real>, a: nat, ms: multiset<(nat, nat)>, b: nat)
    ensures AddRow(row, a, ms + multiset{(a, b)}) == Inc(AddRow(row, a, ms), b)
  {
    PartnersAdd(ms, a, b, a);
    var lhs, rhs := AddRow(row, a, ms + multiset{(a, b)}), Inc(AddRow(row, a, ms), b);
    assert lhs.Keys == rhs.Keys;
    forall k | k in lhs
      ensures lhs[k] == rhs[k]
    {
      RowStepAt(row, a, ms, b, k);
    }
  }

  /** One entry of RowStep: only entry b of row a gains a count. */
  lemma RowStepAt(row: map<nat, real>, a: nat, ms: multiset<(nat, nat)>, b: nat, k: nat)
    requires k in AddRow(row, a, ms + multiset{(a, b)}) && k in Inc(AddRow(row, a, ms), b)
    ensures AddRow(row, a, ms + multiset{(a, b)})[k] == Inc(AddRow(row, a, ms), b)[k]
  {
    var ms' := ms + multiset{(a, b)};
    assert AddRow(row, a, ms')[k] == Get(row, k) + ms'[(a, k)] as real;
    if k == b {
      assert ms'[(a, b)] == ms[(a, b)] + 1;
      GetAddRow(row, a, ms, b);
    } else {
      assert ms'[(a, k)] == ms[(a, k)];
      assert k in AddRow(row, a, ms);
    }
  }

  lemma RowOther(row: map<nat, real>, c: nat, ms: multiset<(nat, nat)>, a: nat, b: nat)
    requires c != a
    ensures AddRow(row, c, ms + multiset{(a, b)}) == AddRow(row, c, ms)
  {
    PartnersAdd(ms, a, b, c);
    var lhs, rhs := AddRow(row, c, ms + multiset{(a, b)}), AddRow(row, c, ms);
    assert lhs.Keys == rhs.Keys;
    forall k | k in lhs
      ensures lhs[k] == rhs[k]
    {
      assert (ms + multiset{(a, b)})[(c, k)] == ms[(c, k)];
    }
  }

  /** Adding one pair (a, b) increments entry [a][b] and nothing else. */
  lemma AddPairStep(conn: seq<map<nat, real>>, ms: multiset<(nat, nat)>, a: nat, b: nat)
    requires a < |conn|
    ensures AddPairCounts(conn, ms + multiset{(a, b)}) == AddPairCounts(conn, ms)[a := Inc(AddPairCounts(conn, ms)[a], b)]
  {
    var lhs, rhs := AddPairCounts(conn, ms + multiset{(a, b)}), AddPairCounts(conn, ms)[a := Inc(AddPairCounts(conn, ms)[a], b)];
    forall c | 0 <= c < |conn|
      ensures lhs[c] == rhs[c]
    {
      if c == a {
        RowStep(conn[c], a, ms, b);
      } else {
        RowOther(conn[c], c, ms, a, b);
      }
    }
  }

  lemma PartnersUnion(m1: multiset<(nat, nat)>, m2: multiset<(nat, nat)>, a: nat)
    ensures Partners(m1 + m2, a) == Partners(m1, a) + Partners(m2, a)
  {
    forall b | b in Partners(m1 + m2, a)
      ensures b in Partners(m1, a) + Partners(m2, a)
    {
      var p :| p in m1 + m2 && p.0 == a && p.1 == b;
      assert p in m1 || p in m2;
    }
    forall b | b in Partners(m1, a) + Partners(m2, a)
      ensures b in Partners(m1 + m2, a)
    {
      var p :| (p in m1 || p in m2) && p.0 == a && p.1 == b;
      assert p in m1 + m2;
    }
  }

  lemma RowUnion(row: map<nat, real>, a: nat, m1: multiset<(nat, nat)>, m2: multiset<(nat, nat)>)
    ensures AddRow(AddRow(row, a, m1), a, m2) == AddRow(row, a, m1 + m2)
  {
    PartnersUnion(m1, m2, a);
    var lhs, rhs := AddRow(AddRow(row, a, m1), a, m2), AddRow(row, a, m1 + m2);
    assert lhs.Keys == rhs.Keys;
    forall k | k in lhs
      ensures lhs[k] == rhs[k]
    {
      assert (m1 + m2)[(a, k)] == m1[(a, k)] + m2[(a, k)];
    }
  }

  /** Counts of consecutive streamlines add up. */
  lemma AddPairCountsUnion(conn: seq<map<nat, real>>, m1: multiset<(nat, nat)>, m2: multiset<(nat, nat)>)
    ensures AddPairCounts(AddPairCounts(conn, m1), m2) == AddPairCounts(conn, m1 + m2)
  {
    forall a | 0 <= a < |conn|
      ensures AddRow(AddRow(conn[a], a, m1), a, m2) == AddRow(conn[a], a, m1 + m2)
    {
      RowUnion(conn[a], a, m1, m2);
    }
  }


  lemma {:induction false} CountAppend(l1: seq<nat>, l2: seq<nat>, f: nat)
    ensures Count(l1 + l2, f) == Count(l1, f) + Count(l2, f)
    decreases |l2|
  {
    if |l2| == 0 {
      assert l1 + l2 == l1;
    } else {
      var init := l2[..|l2| - 1];
      CountAppend(l1, init, f);
      assert (l1 + l2)[..|l1 + l2| - 1] == l1 + init;
    }
  }

  lemma CountCons(x: nat, s: seq<nat>, f: nat)
    ensures Count([x] + s, f) == Count(s, f) + if x == f then 1 else 0
  {
    CountAppend([x], s, f);
    assert [x][..0] == [];
  }

  lemma {:induction false} CountMember(l: seq<nat>, f: nat)
    ensures Count(l, f) > 0 <==> f in l
    decreases |l|
  {
    if |l| > 0 {
      CountMember(l[..|l| - 1], f);
      assert l == l[..|l| - 1] + [l[|l| - 1]];
    }
  }

  /** How often (a, b) occurs among the pairs of x with the elements of s. */
  lemma {:induction false} CrossCount(x: nat, s: seq<nat>, a: nat, b: nat)
    ensures Cross(x, s)[(a, b)] == (if a == x then Count(s, b) else 0) + (if b == x then Count(s, a) else 0)
    decreases |s|
  {
    if |s| > 0 {
      var init, y := s[..|s| - 1], s[|s| - 1];
      CrossCount(x, init, a, b);
      assert multiset{(x, y)}[(a, b)] == if a == x && b == y then 1 else 0;
      assert multiset{(y, x)}[(a, b)] == if a == y && b == x then 1 else 0;
    }
  }

  /**
   * The counts a streamline adds: c(a) * c(b) for two different fixels and
   * c(a) * (c(a) - 1) on the diagonal, where c counts the fixel's
   * occurrences in the streamline's list.
   */
  lemma PairsCount(l: seq<nat>, a: nat, b: nat)
    ensures a == b ==> Pairs(l)[(a, b)] == Count(l, a) * (Count(l, a) - 1)
    ensures a != b ==> Pairs(l)[(a, b)] == Count(l, a) * Count(l, b)
  {
    if a == b {
      DiagonalCount(l, a);
      OrderedPairsClosed(Count(l, a));
    } else {
      OffDiagonalCount(l, a, b);
    }
  }

  /** The ordered pairs of distinct positions among n: 0 + 2 + 4 + ... + 2(n - 1). */
  function OrderedPairs(n: nat): nat
  {
    if n == 0 then 0 else OrderedPairs(n - 1) + 2 * (n - 1)
  }

  lemma {:induction false} OrderedPairsClosed(n: nat)
    ensures OrderedPairs(n) == n * (n - 1)
    decreases n
  {
    if n > 0 {
      OrderedPairsClosed(n - 1);
      SuccSquare(n - 1, n);
    }
  }

  lemma CountHead(l: seq<nat>, f: nat)
    requires |l| > 0
    ensures Count(l, f) == Count(l[1..], f) + if l[0] == f then 1 else 0
  {
    assert l == [l[0]] + l[1..];
    CountCons(l[0], l[1..], f);
  }

  lemma PairsHead(l: seq<nat>, p: (nat, nat))
    requires |l| > 0
    ensures Pairs(l)[p] == Cross(l[0], l[1..])[p] + Pairs(l[1..])[p]
  {
  }

  lemma {:induction false} DiagonalCount(l: seq<nat>, a: nat)
    ensures Pairs(l)[(a, a)] == OrderedPairs(Count(l, a))
    decreases |l|
  {
    if |l| > 0 {
      var x, s := l[0], l[1..];
      PairsHead(l, (a, a));
      CountHead(l, a);
      DiagonalCount(s, a);
      CrossCount(x, s, a, a);
      DiagonalStep(Pairs(l)[(a, a)], Cross(x, s)[(a, a)], Pairs(s)[(a, a)], Count(l, a), Count(s, a), x == a);
    }
  }

  /** The arithmetic of one step of DiagonalCount. */
  lemma DiagonalStep(total: nat, cross: nat, rest: nat, count: nat, c: nat, hit: bool)
    requires total == cross + rest && rest == OrderedPairs(c)
    requires cross == (if hit then c else 0) + (if hit then c else 0)
    requires count == c + if hit then 1 else 0
    ensures total == OrderedPairs(count)
  {
    if hit {
      assert OrderedPairs(c + 1) == OrderedPairs(c) + 2 * c;
    }
  }

  lemma {:induction false} OffDiagonalCount(l: seq<nat>, a: nat, b: nat)
    requires a != b
    ensures Pairs(l)[(a, b)] == Count(l, a) * Count(l, b)
    decreases |l|
  {
    if |l| > 0 {
      var x, s := l[0], l[1..];
      PairsHead(l, (a, b));
      CountHead(l, a);
      CountHead(l, b);
      OffDiagonalCount(s, a, b);
      CrossCount(x, s, a, b);
      OffDiagonalStep(Pairs(l)[(a, b)], Cross(x, s)[(a, b)], Pairs(s)[(a, b)],
                      Count(l, a), Count(l, b), Count(s, a), Count(s, b), x == a, x == b);
    }
  }

  /** The arithmetic of one step of OffDiagonalCount: x is at most one of a and b. */
  lemma OffDiagonalStep(total: nat, cross: nat, rest: nat, da: nat, db: nat, ca: nat, cb: nat, hitA: bool, hitB: bool)
    requires !(hitA && hitB)
    requires total == cross + rest && rest == ca * cb
    requires cross == (if hitA then cb else 0) + (if hitB then ca else 0)
    requires da == ca + (if hitA then 1 else 0) && db == cb + (if hitB then 1 else 0)
    ensures total == da * db
  {
    if hitA {
      SuccProduct(ca, da, cb);
    } else if hitB {
      SuccProduct(cb, db, ca);
    }
  }

  lemma SuccProduct(p: int, p': int, q: int)
    requires p' == p + 1
    ensures p' * q == p * q + q && q * p' == q * p + q
  {
  }

  lemma SuccSquare(p: int, p': int)
    requires p' == p + 1
    ensures p' * (p' - 1) == p * (p - 1) + 2 * p
  {
  }

  lemma {:induction false} CrossSize(x: nat, s: seq<nat>)
    ensures |Cross(x, s)| == 2 * |s|
    decreases |s|
  {
    if |s| > 0 {
      CrossSize(x, s[..|s| - 1]);
    }
  }

  /** A list of k accepted fixels adds k(k - 1) counts in total. */
  lemma {:induction false} PairsSize(l: seq<nat>)
    ensures |Pairs(l)| == |l| * (|l| - 1)
    decreases |l|
  {
    if |l| > 0 {
      var s := l[1..];
      PairsSize(s);
      CrossSize(l[0], s);
      assert |Pairs(l)| == |Cross(l[0], s)| + |Pairs(s)|;
      SizeStep(|Pairs(l)|, |Cross(l[0], s)|, |Pairs(s)|, |s|, |l|);
    }
  }

  /** The arithmetic of one step of PairsSize. */
  lemma SizeStep(total: nat, cross: nat, rest: nat, m: nat, n: nat)
    requires n == m + 1 && total == cross + rest && cross == 2 * m && rest == m * (m - 1)
    ensures total == n * (n - 1)
  {
    SuccSquare(m, n);
  }

  /** Both directions of every pair are counted equally often. */
  lemma {:induction false} PairsSymmetric(l: seq<nat>, a: nat, b: nat)
    ensures Pairs(l)[(a, b)] == Pairs(l)[(b, a)]
    decreases |l|
  {
    if |l| > 0 {
      PairsSymmetric(l[1..], a, b);
      CrossCount(l[0], l[1..], a, b);
      CrossCount(l[0], l[1..], b, a);
    }
  }

  /** Only fixels of the list are paired, and a fixel with itself only if it occurs twice. */
  lemma PairsMembers(l: seq<nat>, a: nat, b: nat)
    requires (a, b) in Pairs(l)
    ensures a in l && b in l
    ensures a == b ==> Count(l, a) >= 2
  {
    PairsCount(l, a, b);
    PositiveProduct(Count(l, a), if a == b then Count(l, a) - 1 else Count(l, b));
    CountMember(l, a);
    CountMember(l, b);
  }

  lemma PositiveProduct(p: nat, q: int)
    requires p * q > 0
    ensures p > 0 && q > 0
  {
  }

  /** A fixel that occurs twice in one list has its diagonal entry increased by 2. */
  lemma RevisitedDiagonal(l: seq<nat>, a: nat)
    requires Count(l, a) == 2
    ensures Pairs(l)[(a, a)] == 2
  {
    PairsCount(l, a, a);
  }

  lemma GetAddRow(row: map<nat, real>, a: nat, ms: multiset<(nat, nat)>, b: nat)
    ensures Get(AddRow(row, a, ms), b) == Get(row, b) + ms[(a, b)] as real
    ensures b in AddRow(row, a, ms) <==> b in row || (a, b) in ms
  {
    if (a, b) in ms {
      assert b in Partners(ms, a);
    }
  }

  /** The empty matrix over zero TDI satisfies the invariant. */
  lemma InitialInvariant(n: nat)
    ensures ConnectivityInvariant(Zeros(n), EmptyRows(n))
  {
  }

  /**
   * One streamline keeps the invariant: new keys are fixels of its list,
   * which its visits make positive, and both directions of each pair are
   * added.
   */
  lemma StreamlineKeepsInvariant(tdi: seq<nat>, conn: seq<map<nat, real>>, l: seq<nat>)
    requires ConnectivityInvariant(tdi, conn)
    requires forall i :: 0 <= i < |l| ==> l[i] < |conn|
    ensures ConnectivityInvariant(AddVisits(tdi, l), AddPairCounts(conn, Pairs(l)))
  {
    var tdi', conn', ps := AddVisits(tdi, l), AddPairCounts(conn, Pairs(l)), Pairs(l);
    forall a, b | 0 <= a < |conn'| && b in conn'[a]
      ensures b < |conn'| && tdi'[a] > 0
    {
      GetAddRow(conn[a], a, ps, b);
      VisitsCount(tdi, l, a);
      if b !in conn[a] {
        PairsMembers(l, a, b);
        CountMember(l, a);
      }
    }
    forall a, b | 0 <= a < |conn'| && 0 <= b < |conn'|
      ensures Get(conn'[a], b) == Get(conn'[b], a)
    {
      GetAddRow(conn[a], a, ps, b);
      GetAddRow(conn[b], b, ps, a);
      PairsSymmetric(l, a, b);
    }
  }

  /**
   * `fixel_TDI` as written: a `uint16_t` entry per fixel, so every visit
   * count is reduced modulo 65536.
   */
  function AddVisitsUint16(tdi: seq<nat>, l: seq<nat>): (r: seq<nat>)
    ensures |r| == |tdi|
  {
    if |l| == 0 then tdi
    else
      var r := AddVisitsUint16(tdi, l[..|l| - 1]);
      var f := l[|l| - 1];
      if f < |r| then r[f := (r[f] + 1) % 65536] else r
  }

  /** The 16-bit TDI holds the visit count modulo 65536. */
  lemma {:induction false} VisitsCountUint16(tdi: seq<nat>, l: seq<nat>, f: nat)
    requires f < |tdi| && tdi[f] < 65536
    ensures AddVisitsUint16(tdi, l)[f] == (tdi[f] + Count(l, f)) % 65536
    decreases |l|
  {
    if |l| > 0 {
      var init := l[..|l| - 1];
      VisitsCountUint16(tdi, init, f);
      ModSucc(tdi[f] + Count(init, f));
    }
  }

  /**
   * The processor's TDI is the corrected, unbounded count. The source's
   * 16-bit entry is that count modulo 65536, so applied to what `Process`
   * and `ProcessAll` guarantee this gives the TDI as written.
   */
  lemma Uint16IsUnboundedModulo(tdi: seq<nat>, l: seq<nat>, f: nat)
    requires f < |tdi| && tdi[f] < 65536
    ensures AddVisitsUint16(tdi, l)[f] == AddVisits(tdi, l)[f] % 65536
  {
    VisitsCount(tdi, l, f);
    VisitsCountUint16(tdi, l, f);
  }

  lemma ModSucc(n: nat)
    ensures (n % 65536 + 1) % 65536 == (n + 1) % 65536
  {
  }

  /**
   * With a 16-bit TDI, a streamline that visits fixel f a multiple of 65536
   * times leaves its TDI where it was, at 0 from an empty start, although
   * its row now holds the diagonal count: the invariant the normalisation's
   * division relies on fails.
   */
  lemma Uint16TdiWraps(n: nat, l: seq<nat>, f: nat)
    requires f < n && Count(l, f) == 65536
    requires forall i :: 0 <= i < |l| ==> l[i] < n
    ensures AddVisitsUint16(Zeros(n), l)[f] == 0
    ensures f in AddPairCounts(EmptyRows(n), Pairs(l))[f]
    ensures !ConnectivityInvariant(AddVisitsUint16(Zeros(n), l), AddPairCounts(EmptyRows(n), Pairs(l)))
  {
    VisitsCountUint16(Zeros(n), l, f);
    PairsCount(l, f, f);
    OrderedPairsClosed(65536);
    assert (f, f) in Pairs(l);
    GetAddRow(map[], f, Pairs(l), f);
  }

  lemma {:induction false} ZerosCount(n: nat)
    ensures Count(Zeros(n), 0) == n
    decreases n
  {
    if n > 0 {
      ZerosCount(n - 1);
      assert Zeros(n)[..n - 1] == Zeros(n - 1);
    }
  }

  /** Such streamlines exist: 65536 samples of fixel 0, in a one-fixel template. */
  lemma Uint16TdiWrapsExample(m: nat)
    requires m == 65536
    ensures AddVisitsUint16(Zeros(1), Zeros(m)) == [0]
    ensures !ConnectivityInvariant(AddVisitsUint16(Zeros(1), Zeros(m)), AddPairCounts(EmptyRows(1), Pairs(Zeros(m))))
  {
    ZerosCount(m);
    Uint16TdiWraps(1, Zeros(m), 0);
  }

  /** All streamlines' fixel lists, one after another. */
  function Concat(ls: seq<seq<nat>>): seq<nat>
  {
    if |ls| == 0 then [] else Concat(ls[..|ls| - 1]) + ls[|ls| - 1]
  }

  /** The pairs of all streamlines, each streamline's counted on its own. */
  function SumPairs(ls: seq<seq<nat>>): multiset<(nat, nat)>
  {
    if |ls| == 0 then multiset{} else SumPairs(ls[..|ls| - 1]) + Pairs(ls[|ls| - 1])
  }

  /**
   * With an unbounded TDI, the matrix and TDI that any sequence of
   * streamlines builds from the empty start keep the invariant: the state
   * `ProcessAll` leaves on a new processor.
   */
  lemma {:induction false} UnboundedTdiKeepsInvariant(n: nat, ls: seq<seq<nat>>)
    requires forall t, i :: 0 <= t < |ls| && 0 <= i < |ls[t]| ==> ls[t][i] < n
    ensures ConnectivityInvariant(AddVisits(Zeros(n), Concat(ls)), AddPairCounts(EmptyRows(n), SumPairs(ls)))
    decreases |ls|
  {
    InitialInvariant(n);
    if |ls| == 0 {
      AddVisitsEmpty(Zeros(n));
      AddPairCountsEmpty(EmptyRows(n));
    } else {
      var init, last := ls[..|ls| - 1], ls[|ls| - 1];
      UnboundedTdiKeepsInvariant(n, init);
      AppendTract(Zeros(n), EmptyRows(n), init, last);
      assert init + [last] == ls;
    }
  }

  /**
   * Appending one streamline to those already processed adds its visits
   * and pairs to the state they left, and keeps the invariant.
   */
  lemma AppendTract(tdi: seq<nat>, conn: seq<map<nat, real>>, init: seq<seq<nat>>, tract: seq<nat>)
    requires forall i :: 0 <= i < |tract| ==> tract[i] < |conn|
    requires ConnectivityInvariant(tdi, conn) ==>
      ConnectivityInvariant(AddVisits(tdi, Concat(init)), AddPairCounts(conn, SumPairs(init)))
    ensures AddVisits(tdi, Concat(init + [tract])) == AddVisits(AddVisits(tdi, Concat(init)), tract)
    ensures AddPairCounts(conn, SumPairs(init + [tract])) == AddPairCounts(AddPairCounts(conn, SumPairs(init)), Pairs(tract))
    ensures ConnectivityInvariant(tdi, conn) ==>
      ConnectivityInvariant(AddVisits(tdi, Concat(init + [tract])), AddPairCounts(conn, SumPairs(init + [tract])))
  {
    assert (init + [tract])[..|init|] == init;
    AddVisitsAppend(tdi, Concat(init), tract);
    AddPairCountsUnion(conn, SumPairs(init), Pairs(tract));
    if ConnectivityInvariant(tdi, conn) {
      StreamlineKeepsInvariant(AddVisits(tdi, Concat(init)), AddPairCounts(conn, SumPairs(init)), tract);
    }
  }
}
