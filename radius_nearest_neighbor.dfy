/**
  The numerical radius-nearest-neighbour privacy attacker and the 0/1 cutoff
  weight it uses by default.

  A table is a sequence of rows, a row maps column names to numbers, and a key
  tuple or a vector of sensitive values is a sequence of reals (exact
  arithmetic in place of numpy floats). The inverse-CDF distance the cutoff
  builds on is injected as a value of type `Distance`: any non-negative
  function of the exponent p, the fitted CDFs and the two key tuples.
*/
module RadiusNearestNeighbor {
  import opened Wrappers

  type Field = string
  type Row = map<Field, real>
  type Table = seq<Row>
  type Vector = seq<real>

  /** Every row of `data` has a value in every one of `fields`. */
  ghost predicate HasFields(data: Table, fields: seq<Field>) {
    forall i, k :: 0 <= i < |data| && 0 <= k < |fields| ==> fields[k] in data[i]
  }

  /** The values of `fields` in `row`, in the order of `fields` (a pandas row selection). */
  function Project(row: Row, fields: seq<Field>): Vector
    requires forall k :: 0 <= k < |fields| ==> fields[k] in row
  {
    seq(|fields|, j requires 0 <= j < |fields| => row[fields[j]])
  }

  function Zeros(n: nat): Vector {
    seq(n, _ => 0.0)
  }

  /** Element-wise sum of two vectors of one arity. */
  function Add(a: Vector, b: Vector): Vector
    requires |a| == |b|
  {
    seq(|a|, j requires 0 <= j < |a| => a[j] + b[j])
  }

  /** Every element of `v` times `c`. */
  function Times(v: Vector, c: real): Vector {
    seq(|v|, j requires 0 <= j < |v| => v[j] * c)
  }

  /** Every element of `v` divided by `d`. */
  function Divide(v: Vector, d: real): Vector
    requires d != 0.0
  {
    seq(|v|, j requires 0 <= j < |v| => v[j] / d)
  }

  // ---------------------------------------------------------------------------
  // The cutoff weight (InverseCDFCutoff)
  // ---------------------------------------------------------------------------

  /**
    The per-column CDFs fitted by the inverse-CDF distance. How they are built
    is not part of this model: a fit is identified by the table and the columns
    it was made on, and `NoCdfs` is the empty list set by the constructor.
  */
  datatype Cdfs = NoCdfs | CdfsOf(data: Table, cols: seq<Field>)

  /** The inverse-CDF Lp distance: exponent p, fitted CDFs, predicted key, reference key. */
  type Distance = d: (nat, Cdfs, Vector, Vector) -> real | forall p, c, x, y :: d(p, c, x, y) >= 0.0
    witness (p: nat, c: Cdfs, x: Vector, y: Vector) => 0.0

  function Pow(x: real, n: nat): real {
    if n == 0 then 1.0 else x * Pow(x, n - 1)
  }

  function Product(ns: seq<nat>): nat {
    if |ns| == 0 then 1 else Product(ns[..|ns| - 1]) * ns[|ns| - 1]
  }

  /** The threshold held after construction with `cutoff` and `p` and fits on `fits[0]`, `fits[1]`, ... key columns. */
  function Threshold(cutoff: real, p: nat, fits: seq<nat>): real {
    Pow(cutoff, p) * Product(fits) as real
  }

  /** One more fit on `n` columns multiplies the threshold by `n`. */
  lemma ThresholdScales(cutoff: real, p: nat, fits: seq<nat>, n: nat)
    ensures Threshold(cutoff, p, fits + [n]) == Threshold(cutoff, p, fits) * n as real
  {
    assert (fits + [n])[..|fits|] == fits;
    var base, a, b := Pow(cutoff, p), Product(fits), Product(fits + [n]);
    assert b == a * n;
    assert b as real == a as real * n as real;
    assert base * b as real == (base * a as real) * n as real;
  }

  /** The column counts multiply to a positive number when every fit had a column. */
  lemma {:induction false} ProductPositive(fits: seq<nat>)
    requires forall k :: 0 <= k < |fits| ==> fits[k] > 0
    ensures Product(fits) > 0
    decreases |fits|
  {
    if |fits| > 0 {
      ProductPositive(fits[..|fits| - 1]);
    }
  }

  /** The weight given to a distance: 1 strictly inside the threshold, 0 otherwise. */
  function CutoffWeight(dist: real, threshold: real): real {
    if dist < threshold then 1.0 else 0.0
  }

  /** The weight of every reference key, for a fixed query, under one threshold. */
  function CutoffKernel(dist: Vector -> real, threshold: real): Vector -> real {
    ref => CutoffWeight(dist(ref), threshold)
  }

  /** Default keyword arguments of the cutoff weight. */
  const DEFAULT_P: nat := 2
  const DEFAULT_CUTOFF: real := 0.1

  class InverseCdfCutoff {
    const p: nat
    const distance: Distance
    var cdfs: Cdfs
    /** The stored threshold: cutoff**p, multiplied by the column count of every fit so far. */
    var cutoff: real
    /** The `cutoff` argument the object was constructed with. */
    ghost var radius: real
    /** The number of columns of each fit so far, oldest first. */
    ghost var fits: seq<nat>

    ghost predicate Valid()
      reads this
    {
      cutoff == Threshold(radius, p, fits)
    }

    constructor (p: nat, cutoff: real, distance: Distance)
      ensures this.p == p && this.distance == distance
      ensures this.cutoff == Pow(cutoff, p) && cdfs == NoCdfs
      ensures radius == cutoff && fits == [] && Valid()
    {
      this.p := p;
      this.distance := distance;
      this.cdfs := NoCdfs;
      this.cutoff := Pow(cutoff, p);
      radius := cutoff;
      fits := [];
    }

    /** Fits the CDFs on `cols` of `data`, then scales the threshold by the column count. */
    method Fit(data: Table, cols: seq<Field>)
      requires Valid()
      modifies this
      ensures cdfs == CdfsOf(data, cols)
      ensures cutoff == old(cutoff) * |cols| as real
      ensures radius == old(radius) && fits == old(fits) + [|cols|] && Valid()
    {
      ThresholdScales(radius, p, fits, |cols|);
      cdfs := CdfsOf(data, cols);
      cutoff := cutoff * |cols| as real;
      fits := fits + [|cols|];
    }

    /**
      The weight of `actual` for the query `pred`: 0 or 1, and 1 exactly when
      the distance is strictly below cutoff**p times the column counts fitted.
    */
    function Measure(pred: Vector, actual: Vector): (w: real)
      reads this
      ensures w == 0.0 || w == 1.0
      ensures Valid() ==>
        (w == 1.0 <==> distance(p, cdfs, pred, actual) < Threshold(radius, p, fits))
    {
      CutoffWeight(distance(p, cdfs, pred, actual), cutoff)
    }

    /** `Measure` for the query `pred`, as a function of the reference key. */
    function Kernel(pred: Vector): (k: Vector -> real)
      reads this
      ensures forall actual :: k(actual) == Measure(pred, actual)
    {
      var d, q, c := distance, p, cdfs;
      CutoffKernel(ref => d(q, c, pred, ref), cutoff)
    }
  }

  // ---------------------------------------------------------------------------
  // The attacker (NumericalRadiusNearestNeighborAttacker)
  // ---------------------------------------------------------------------------

  /** Keyword arguments for the weight function; an absent one takes its default. */
  datatype CutoffKwargs = CutoffKwargs(p: Option<nat>, cutoff: Option<real>)

  /** The MODEL_KWARGS of the NumericalRadiusNearestNeighbor metric. */
  const METRIC_KWARGS := CutoffKwargs(Some(2), Some(0.3))

  /** The sum, over all rows, of the weight of each row's key tuple. */
  function TotalWeight(weight: Vector -> real, data: Table, keyFields: seq<Field>): real
    requires HasFields(data, keyFields)
  {
    if |data| == 0 then 0.0
    else TotalWeight(weight, data[..|data| - 1], keyFields) + weight(Project(data[|data| - 1], keyFields))
  }

  /** The sum of the sensitive vectors of all rows, whatever their weight. */
  function SensitiveSum(data: Table, fields: seq<Field>): (s: Vector)
    requires HasFields(data, fields)
    ensures |s| == |fields|
  {
    if |data| == 0 then Zeros(|fields|)
    else Add(SensitiveSum(data[..|data| - 1], fields), Project(data[|data| - 1], fields))
  }

  /** What `predict` returns: the zero tuple when the total weight is 0, else the sensitive sum over the total weight. */
  function Prediction(weight: Vector -> real, data: Table, keyFields: seq<Field>, sensitiveFields: seq<Field>): (r: Vector)
    requires HasFields(data, keyFields) && HasFields(data, sensitiveFields)
  {
    var total := TotalWeight(weight, data, keyFields);
    if total == 0.0 then Zeros(|sensitiveFields|) else Divide(SensitiveSum(data, sensitiveFields), total)
  }

  /** The sum of column `f` over all rows. */
  function ColumnSum(data: Table, f: Field): real
    requires forall i :: 0 <= i < |data| ==> f in data[i]
  {
    if |data| == 0 then 0.0 else ColumnSum(data[..|data| - 1], f) + data[|data| - 1][f]
  }

  ghost predicate NonNegative(weight: Vector -> real) {
    forall v :: weight(v) >= 0.0
  }

  class NumericalRadiusNearestNeighborAttacker {
    const weightFunc: InverseCdfCutoff
    var syntheticData: Option<Table>
    var keyFields: Option<seq<Field>>
    var sensitiveFields: Option<seq<Field>>

    /** Builds the weight function from its keyword arguments (none given: all defaults); nothing is fitted yet. */
    constructor (weightFuncKwargs: Option<CutoffKwargs>, distance: Distance)
      ensures fresh(weightFunc) && weightFunc.Valid()
      ensures var kwargs := weightFuncKwargs.GetOr(CutoffKwargs(None, None));
        && weightFunc.p == kwargs.p.GetOr(DEFAULT_P)
        && weightFunc.radius == kwargs.cutoff.GetOr(DEFAULT_CUTOFF)
      ensures weightFunc.distance == distance && weightFunc.cdfs == NoCdfs && weightFunc.fits == []
      ensures syntheticData == None && keyFields == None && sensitiveFields == None
    {
      var kwargs := weightFuncKwargs.GetOr(CutoffKwargs(None, None));
      weightFunc := new InverseCdfCutoff(kwargs.p.GetOr(DEFAULT_P), kwargs.cutoff.GetOr(DEFAULT_CUTOFF), distance);
      syntheticData := None;
      keyFields := None;
      sensitiveFields := None;
    }

    /** Fits the weight function on the key columns and keeps the three arguments as given. */
    method Fit(syntheticData: Table, keyFields: seq<Field>, sensitiveFields: seq<Field>)
      requires weightFunc.Valid()
      modifies this, weightFunc
      ensures this.syntheticData == Some(syntheticData)
      ensures this.keyFields == Some(keyFields)
      ensures this.sensitiveFields == Some(sensitiveFields)
      ensures weightFunc.cdfs == CdfsOf(syntheticData, keyFields)
      ensures weightFunc.cutoff == old(weightFunc.cutoff) * |keyFields| as real
      ensures weightFunc.radius == old(weightFunc.radius) && weightFunc.fits == old(weightFunc.fits) + [|keyFields|]
      ensures weightFunc.Valid()
    {
      weightFunc.Fit(syntheticData, keyFields);
      this.syntheticData := Some(syntheticData);
      this.keyFields := Some(keyFields);
      this.sensitiveFields := Some(sensitiveFields);
    }

    /**
      Predicts the sensitive values for the key tuple `keyData` from every
      synthetic row; changes nothing.
    */
    method Predict(keyData: Vector) returns (r: Vector)
      requires syntheticData.Some? && keyFields.Some? && sensitiveFields.Some?
      requires HasFields(syntheticData.value, keyFields.value)
      requires HasFields(syntheticData.value, sensitiveFields.value)
      ensures r == Prediction(weightFunc.Kernel(keyData), syntheticData.value, keyFields.value, sensitiveFields.value)
    {
      var data, keys, sensitive := syntheticData.value, keyFields.value, sensitiveFields.value;
      ghost var weight := weightFunc.Kernel(keyData);
      var weights := 0.0;
      var summ: Option<Vector> := None;
      var modified := false;
      var idx := 0;
      while idx < |data|
        invariant 0 <= idx <= |data|
        invariant HasFields(data[..idx], keys) && HasFields(data[..idx], sensitive)
        invariant weights == TotalWeight(weight, data[..idx], keys)
        invariant modified <==> idx > 0
        invariant modified ==> summ == Some(SensitiveSum(data[..idx], sensitive))
      {
        var refKey := Project(data[idx], keys);
        var sensitiveData := Project(data[idx], sensitive);
        var w := weightFunc.Measure(keyData, refKey);
        assert data[..idx + 1][..idx] == data[..idx];
        weights := weights + w;
        if !modified {
          assert Add(Zeros(|sensitive|), sensitiveData) == sensitiveData;
          summ := Some(sensitiveData);
          modified := true;
        } else {
          summ := Some(Add(summ.value, sensitiveData));
        }
        idx := idx + 1;
      }
      assert data[..idx] == data;
      if weights == 0.0 {
        r := Zeros(|sensitive|);
      } else {
        r := Divide(summ.value, weights);
      }
    }
  }

  /** The attacker the NumericalRadiusNearestNeighbor metric builds: p = 2 and cutoff 0.3, so threshold 0.09 before fitting. */
  method MetricAttacker(distance: Distance) returns (attacker: NumericalRadiusNearestNeighborAttacker)
    ensures fresh(attacker) && fresh(attacker.weightFunc) && attacker.weightFunc.Valid()
    ensures attacker.weightFunc.p == 2 && attacker.weightFunc.radius == 0.3 && attacker.weightFunc.cutoff == 0.09
    ensures attacker.weightFunc.distance == distance && attacker.weightFunc.cdfs == NoCdfs && attacker.weightFunc.fits == []
    ensures attacker.syntheticData == None && attacker.keyFields == None && attacker.sensitiveFields == None
  {
    attacker := new NumericalRadiusNearestNeighborAttacker(Some(METRIC_KWARGS), distance);
  }

  // ---------------------------------------------------------------------------
  // Properties of the cutoff weight
  // ---------------------------------------------------------------------------

  /** A power of a non-negative base is non-negative and grows with the base. */
  lemma {:induction false} PowMonotone(x: real, y: real, n: nat)
    requires 0.0 <= x <= y
    ensures 0.0 <= Pow(x, n) <= Pow(y, n)
  {
    if n > 0 {
      PowMonotone(x, y, n - 1);
      var a, b := Pow(x, n - 1), Pow(y, n - 1);
      assert x * a <= y * a;
      assert y * a <= y * b;
    }
  }

  lemma {:induction false} PowPositive(x: real, n: nat)
    requires x > 0.0
    ensures Pow(x, n) > 0.0
  {
    if n > 0 {
      PowPositive(x, n - 1);
      var a := Pow(x, n - 1);
      assert x * a > 0.0;
    }
  }

  /** With p, the fits and the distance fixed, raising the cutoff never turns a weight of 1 into 0. */
  lemma RaisingCutoffKeepsNeighbour(dist: real, c1: real, c2: real, p: nat, fits: seq<nat>)
    requires 0.0 <= c1 <= c2
    ensures CutoffWeight(dist, Threshold(c1, p, fits)) == 1.0 ==> CutoffWeight(dist, Threshold(c2, p, fits)) == 1.0
  {
    PowMonotone(c1, c2, p);
    var a, b, n := Pow(c1, p), Pow(c2, p), Product(fits);
    assert a * n as real <= b * n as real;
  }

  /** An exact key match (distance 0) is a neighbour whenever the cutoff is positive and every fit had a key column. */
  lemma ExactMatchIsNeighbour(cutoff: real, p: nat, fits: seq<nat>)
    requires cutoff > 0.0 && forall k :: 0 <= k < |fits| ==> fits[k] > 0
    ensures CutoffWeight(0.0, Threshold(cutoff, p, fits)) == 1.0
  {
    PowPositive(cutoff, p);
    ProductPositive(fits);
    var a, n := Pow(cutoff, p), Product(fits);
    assert a * n as real > 0.0;
  }

  /** For a fixed query, a larger threshold never counts fewer synthetic rows as neighbours. */
  lemma {:induction false} NeighbourCountMonotone(dist: Vector -> real, t1: real, t2: real, data: Table, keyFields: seq<Field>)
    requires t1 <= t2 && HasFields(data, keyFields)
    ensures TotalWeight(CutoffKernel(dist, t1), data, keyFields) <= TotalWeight(CutoffKernel(dist, t2), data, keyFields)
  {
    if |data| > 0 {
      NeighbourCountMonotone(dist, t1, t2, data[..|data| - 1], keyFields);
      var ref := Project(data[|data| - 1], keyFields);
      assert CutoffKernel(dist, t1)(ref) == CutoffWeight(dist(ref), t1);
      assert CutoffKernel(dist, t2)(ref) == CutoffWeight(dist(ref), t2);
    }
  }

  // ---------------------------------------------------------------------------
  // Properties of the prediction
  // ---------------------------------------------------------------------------

  /** With non-negative weights the total is non-negative, and it is 0 exactly when every row weighs 0. */
  lemma {:induction false} TotalWeightZeroIff(weight: Vector -> real, data: Table, keyFields: seq<Field>)
    requires NonNegative(weight) && HasFields(data, keyFields)
    ensures TotalWeight(weight, data, keyFields) >= 0.0
    ensures TotalWeight(weight, data, keyFields) == 0.0 <==>
      forall i :: 0 <= i < |data| ==> weight(Project(data[i], keyFields)) == 0.0
  {
    if |data| > 0 {
      var prefix := data[..|data| - 1];
      TotalWeightZeroIff(weight, prefix, keyFields);
      assert forall i :: 0 <= i < |prefix| ==> prefix[i] == data[i];
      var last := weight(Project(data[|data| - 1], keyFields));
      assert last >= 0.0;
      if TotalWeight(weight, data, keyFields) == 0.0 {
        forall i | 0 <= i < |data|
          ensures weight(Project(data[i], keyFields)) == 0.0
        {
          if i < |prefix| {
            assert prefix[i] == data[i];
          }
        }
      }
    }
  }

  /** Component j of the sensitive sum is the sum of column `fields[j]` over all rows. */
  lemma {:induction false} SensitiveSumByColumn(data: Table, fields: seq<Field>, j: nat)
    requires HasFields(data, fields) && j < |fields|
    ensures SensitiveSum(data, fields)[j] == ColumnSum(data, fields[j])
  {
    if |data| > 0 {
      SensitiveSumByColumn(data[..|data| - 1], fields, j);
    }
  }

  /**
    `predict` returns one value per sensitive field: all zeros when the total
    weight is 0 (in particular with no synthetic rows), otherwise each column's
    sum over ALL rows divided by the total weight.
  */
  lemma PredictionByComponent(weight: Vector -> real, data: Table, keyFields: seq<Field>, sensitiveFields: seq<Field>)
    requires HasFields(data, keyFields) && HasFields(data, sensitiveFields)
    ensures var r, total := Prediction(weight, data, keyFields, sensitiveFields), TotalWeight(weight, data, keyFields);
      && |r| == |sensitiveFields|
      && (|data| == 0 ==> r == Zeros(|sensitiveFields|))
      && forall j :: 0 <= j < |sensitiveFields| ==>
           r[j] == if total == 0.0 then 0.0 else ColumnSum(data, sensitiveFields[j]) / total
  {
    forall j | 0 <= j < |sensitiveFields| {
      SensitiveSumByColumn(data, sensitiveFields, j);
    }
  }

  /** The sum over all rows of each sensitive vector times its row's weight. */
  function WeightedSum(weight: Vector -> real, data: Table, keyFields: seq<Field>, sensitiveFields: seq<Field>): (s: Vector)
    requires HasFields(data, keyFields) && HasFields(data, sensitiveFields)
    ensures |s| == |sensitiveFields|
  {
    if |data| == 0 then Zeros(|sensitiveFields|)
    else
      var last := data[|data| - 1];
      Add(WeightedSum(weight, data[..|data| - 1], keyFields, sensitiveFields),
          Times(Project(last, sensitiveFields), weight(Project(last, keyFields))))
  }

  /** The weighted mean the attacker's documentation describes, with the same zero fallback. */
  function WeightedMean(weight: Vector -> real, data: Table, keyFields: seq<Field>, sensitiveFields: seq<Field>): (r: Vector)
    requires HasFields(data, keyFields) && HasFields(data, sensitiveFields)
  {
    var total := TotalWeight(weight, data, keyFields);
    if total == 0.0 then Zeros(|sensitiveFields|) else Divide(WeightedSum(weight, data, keyFields, sensitiveFields), total)
  }

  lemma {:induction false} WeightedSumBounds(weight: Vector -> real, data: Table, keyFields: seq<Field>, sensitiveFields: seq<Field>,
                                             j: nat, lo: real, hi: real)
    requires NonNegative(weight) && HasFields(data, keyFields) && HasFields(data, sensitiveFields)
    requires j < |sensitiveFields|
    requires forall i :: 0 <= i < |data| ==> lo <= data[i][sensitiveFields[j]] <= hi
    ensures var total := TotalWeight(weight, data, keyFields);
      lo * total <= WeightedSum(weight, data, keyFields, sensitiveFields)[j] <= hi * total
  {
    if |data| > 0 {
      var prefix, last := data[..|data| - 1], data[|data| - 1];
      assert forall i :: 0 <= i < |prefix| ==> prefix[i] == data[i];
      WeightedSumBounds(weight, prefix, keyFields, sensitiveFields, j, lo, hi);
      var w, x := weight(Project(last, keyFields)), last[sensitiveFields[j]];
      var t, s := TotalWeight(weight, prefix, keyFields), WeightedSum(weight, prefix, keyFields, sensitiveFields)[j];
      assert Project(last, sensitiveFields)[j] == x;
      assert WeightedSum(weight, data, keyFields, sensitiveFields)[j] == s + x * w;
      assert TotalWeight(weight, data, keyFields) == t + w;
      AccumulateBetween(lo, hi, t, s, w, x);
    }
  }

  /** Adding `x * w` with non-negative `w` and `x` in [lo, hi] keeps a sum within the bounds scaled by its weight. */
  lemma AccumulateBetween(lo: real, hi: real, t: real, s: real, w: real, x: real)
    requires w >= 0.0 && lo <= x <= hi && lo * t <= s <= hi * t
    ensures lo * (t + w) <= s + x * w <= hi * (t + w)
  {
    ScaleBetween(lo, x, hi, w);
    assert lo * (t + w) == lo * t + lo * w;
    assert hi * (t + w) == hi * t + hi * w;
  }

  lemma ScaleBetween(lo: real, x: real, hi: real, w: real)
    requires w >= 0.0 && lo <= x <= hi
    ensures lo * w <= x * w <= hi * w
  {
  }

  /**
    The weighted mean lies within the synthetic rows' range in every sensitive
    column: whatever bounds every row's value obeys, its value obeys them too.
  */
  lemma WeightedMeanWithinBounds(weight: Vector -> real, data: Table, keyFields: seq<Field>, sensitiveFields: seq<Field>,
                                 j: nat, lo: real, hi: real)
    requires NonNegative(weight) && HasFields(data, keyFields) && HasFields(data, sensitiveFields)
    requires j < |sensitiveFields| && TotalWeight(weight, data, keyFields) != 0.0
    requires forall i :: 0 <= i < |data| ==> lo <= data[i][sensitiveFields[j]] <= hi
    ensures lo <= WeightedMean(weight, data, keyFields, sensitiveFields)[j] <= hi
  {
    TotalWeightZeroIff(weight, data, keyFields);
    WeightedSumBounds(weight, data, keyFields, sensitiveFields, j, lo, hi);
    var total := TotalWeight(weight, data, keyFields);
    var s := WeightedSum(weight, data, keyFields, sensitiveFields)[j];
    DivideBetween(lo, s, hi, total);
  }

  lemma DivideBetween(lo: real, s: real, hi: real, t: real)
    requires t > 0.0 && lo * t <= s <= hi * t
    ensures lo <= s / t <= hi
  {
    assert s / t * t == s;
  }

  /** A distance from the query key (0): the square of the first key value. */
  function SquareOfFirst(v: Vector): real {
    if |v| == 0 then 0.0 else v[0] * v[0]
  }

  /**
    As written, `predict` is not a weighted mean: with a query at key 0, a
    threshold of 1 and the rows (k 0, s 10) and (k 5, s 20), only the first row
    is a neighbour, yet the prediction is 30, above every synthetic value,
    where the weighted mean is 10.
  */
  lemma PredictionNotWeightedMean()
    ensures var data: Table := [map["k" := 0.0, "s" := 10.0], map["k" := 5.0, "s" := 20.0]];
      var weight := CutoffKernel(SquareOfFirst, 1.0);
      && Prediction(weight, data, ["k"], ["s"]) == [30.0]
      && WeightedMean(weight, data, ["k"], ["s"]) == [10.0]
  {
    var data: Table := [map["k" := 0.0, "s" := 10.0], map["k" := 5.0, "s" := 20.0]];
    var weight := CutoffKernel(SquareOfFirst, 1.0);
    assert data[..1] == [data[0]];
    assert Project(data[0], ["k"]) == [0.0] && Project(data[1], ["k"]) == [5.0];
    assert Project(data[0], ["s"]) == [10.0] && Project(data[1], ["s"]) == [20.0];
    assert SquareOfFirst([0.0]) == 0.0 && SquareOfFirst([5.0]) == 25.0;
    assert weight([0.0]) == CutoffWeight(0.0, 1.0) == 1.0;
    assert weight([5.0]) == CutoffWeight(25.0, 1.0) == 0.0;
    assert TotalWeight(weight, data[..1], ["k"]) == 1.0;
    assert TotalWeight(weight, data, ["k"]) == 1.0;
    assert SensitiveSum(data[..1], ["s"]) == [10.0];
    assert SensitiveSum(data, ["s"]) == [30.0];
    assert WeightedSum(weight, data[..1], ["k"], ["s"]) == [10.0];
    assert WeightedSum(weight, data, ["k"], ["s"]) == [10.0];
  }

  lemma {:induction false} AllNeighboursSums(weight: Vector -> real, data: Table, keyFields: seq<Field>, sensitiveFields: seq<Field>)
    requires HasFields(data, keyFields) && HasFields(data, sensitiveFields)
    requires forall i :: 0 <= i < |data| ==> weight(Project(data[i], keyFields)) == 1.0
    ensures TotalWeight(weight, data, keyFields) == |data| as real
    ensures WeightedSum(weight, data, keyFields, sensitiveFields) == SensitiveSum(data, sensitiveFields)
  {
    if |data| > 0 {
      var prefix := data[..|data| - 1];
      assert forall i :: 0 <= i < |prefix| ==> prefix[i] == data[i];
      AllNeighboursSums(weight, prefix, keyFields, sensitiveFields);
      var v := Project(data[|data| - 1], sensitiveFields);
      assert Times(v, 1.0) == v;
    }
  }

  /** When every synthetic row is a neighbour, what `predict` returns is the plain mean, as documented. */
  lemma AllNeighboursPredictMean(weight: Vector -> real, data: Table, keyFields: seq<Field>, sensitiveFields: seq<Field>)
    requires HasFields(data, keyFields) && HasFields(data, sensitiveFields)
    requires forall i :: 0 <= i < |data| ==> weight(Project(data[i], keyFields)) == 1.0
    ensures Prediction(weight, data, keyFields, sensitiveFields) == WeightedMean(weight, data, keyFields, sensitiveFields)
    ensures |data| > 0 ==>
      Prediction(weight, data, keyFields, sensitiveFields) == Divide(SensitiveSum(data, sensitiveFields), |data| as real)
  {
    AllNeighboursSums(weight, data, keyFields, sensitiveFields);
  }
}
