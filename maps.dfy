/**
 * Sparse per-fixel rows (`std::map<int32_t, value>`): lookups with a 0
 * default, sums of the values of a row, and rescaling of a row.
 */
module Maps {

  /** `row[k]` of a std::map read as a number: a missing key reads as 0. */
  function Get(row: map<nat, real>, k: nat): real
  {
    if k in row then row[k] else 0.0
  }

  /** `std::map::insert`: adds the pair only if the key is absent. */
  function InsertAbsent(row: map<nat, real>, k: nat, v: real): (r: map<nat, real>)
    ensures k in r && r.Keys == row.Keys + {k}
    ensures r[k] == if k in row then row[k] else v
    ensures forall j :: j in row ==> r[j] == row[j]
  {
    if k in row then row else row[k := v]
  }

  function Restrict(row: map<nat, real>, keys: set<nat>): map<nat, real>
  {
    map k | k in row && k in keys :: row[k]
  }

  /** The sum of the values of a row. */
  ghost function SumValues(row: map<nat, real>): real
    decreases |row.Keys|
  {
    if row.Keys == {} then 0.0
    else
      var k :| k in row.Keys;
      assert (row - {k}).Keys == row.Keys - {k};
      row[k] + SumValues(row - {k})
  }

  /** The sum does not depend on which key is taken out first. */
  lemma {:induction false} SumRemove(row: map<nat, real>, k: nat)
    requires k in row
    ensures SumValues(row) == row[k] + SumValues(row - {k})
    decreases |row.Keys|
  {
    var k0 :| k0 in row.Keys && SumValues(row) == row[k0] + SumValues(row - {k0});
    if k0 != k {
      assert (row - {k0}).Keys == row.Keys - {k0};
      assert (row - {k}).Keys == row.Keys - {k};
      SumRemove(row - {k0}, k);
      SumRemove(row - {k}, k0);
      assert (row - {k0}) - {k} == (row - {k}) - {k0};
    }
  }

  lemma SumEmpty(row: map<nat, real>)
    requires row.Keys == {}
    ensures SumValues(row) == 0.0
  {
  }

  lemma SumSingleton(k: nat, v: real)
    ensures SumValues(map[k := v]) == v
  {
    var row := map[k := v];
    SumRemove(row, k);
    assert (row - {k}).Keys == {};
  }

  /**
   * A product, kept behind a function so that proofs about sums of products
   * stay linear for the solver.
   */
  function Times(x: real, y: real): real
  {
    x * y
  }

  lemma Distribute(x: real, y: real, c: real)
    ensures Times(x, c) + Times(y, c) == Times(x + y, c)
  {
  }

  /** Rows whose values are proportional have proportional sums. */
  lemma {:induction false} SumProportional(a: map<nat, real>, b: map<nat, real>, c: real)
    requires a.Keys == b.Keys
    requires forall k :: k in a ==> b[k] == Times(a[k], c)
    ensures SumValues(b) == Times(SumValues(a), c)
    decreases |a.Keys|
  {
    if a.Keys != {} {
      var k :| k in a;
      var ra, rb := a - {k}, b - {k};
      assert ra.Keys == a.Keys - {k} == rb.Keys;
      assert forall j :: j in ra ==> rb[j] == Times(ra[j], c);
      SumRemove(a, k);
      SumRemove(b, k);
      SumProportional(ra, rb, c);
      Distribute(a[k], SumValues(ra), c);
      ProportionalStep(SumValues(a), SumValues(b), a[k], b[k], SumValues(ra), SumValues(rb), c);
    }
  }

  /** The arithmetic of one step of SumProportional. */
  lemma ProportionalStep(sa: real, sb: real, ak: real, bk: real, ra: real, rb: real, c: real)
    requires sa == ak + ra && sb == bk + rb
    requires bk == Times(ak, c) && rb == Times(ra, c)
    requires Times(ak, c) + Times(ra, c) == Times(ak + ra, c)
    ensures sb == Times(sa, c)
  {
  }

  /** The sum is monotone in the values, for rows with the same keys. */
  lemma {:induction false} SumMonotone(a: map<nat, real>, b: map<nat, real>)
    requires a.Keys == b.Keys
    requires forall k :: k in a ==> a[k] <= b[k]
    ensures SumValues(a) <= SumValues(b)
    decreases |a.Keys|
  {
    if a.Keys != {} {
      var k :| k in a;
      SumRemove(a, k);
      SumRemove(b, k);
      assert (a - {k}).Keys == a.Keys - {k};
      SumMonotone(a - {k}, b - {k});
    }
  }

  /** A non-empty row of positive values has a positive sum. */
  lemma {:induction false} SumPositive(row: map<nat, real>)
    requires row.Keys != {}
    requires forall k :: k in row ==> row[k] > 0.0
    ensures SumValues(row) > 0.0
    decreases |row.Keys|
  {
    var k :| k in row;
    SumRemove(row, k);
    assert (row - {k}).Keys == row.Keys - {k};
    if (row - {k}).Keys != {} {
      SumPositive(row - {k});
    }
  }

  /** Taking one more key out of a restriction. */
  lemma RestrictRemove(row: map<nat, real>, keys: set<nat>, k: nat)
    requires k in keys && k in row
    ensures k in Restrict(row, keys)
    ensures Restrict(row, keys) - {k} == Restrict(row, keys - {k})
  {
  }
}
