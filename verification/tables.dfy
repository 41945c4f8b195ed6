/** The cumulative tables built over the energy grid: range, range straggling, angular
    variance and time of flight. Each is a running sum with one integral per grid cell. */
module Tables {
  import opened Constants
  import opened Entities

  /** An integrator: `integrate(f, a, b)` estimates the integral of f over [a, b]. */
  type Integrator = (real -> real, real, real) -> real

  /** The rate functions of one (projectile, material, configuration), as functions of energy. */
  datatype Rates = Rates(
    inverseStopping: real -> real,   // 1 / (dE/dx)
    stragglingRate: real -> real,    // (dΩ²/dx) / (dE/dx)³
    angularRate: real -> real,       // dθ²/dx, the da2dx weighted sum
    tofRate: real -> real)           // 1 / ((dE/dx) · β)

  /** What a table build consumes: the energy grid, the integrator and the rates per key. */
  datatype Builder = Builder(grid: seq<real>, integrate: Integrator, rates: Key -> Rates)

  /** A cached entry: its key and its three cumulative tables. */
  datatype DataPoint = DataPoint(key: Key, range: seq<real>, rangeStraggling: seq<real>, angularVariance: seq<real>)

  /** Lower end of grid cell i: Ezero for the first cell, the previous grid energy otherwise. */
  function CellLow(grid: seq<real>, i: int): real
    requires 0 <= i < |grid|
  {
    if i == 0 then Ezero else grid[i - 1]
  }

  function CellIntegral(integrate: Integrator, f: real -> real, grid: seq<real>, i: int): real
    requires 0 <= i < |grid|
  {
    integrate(f, CellLow(grid, i), grid[i])
  }

  /** Every cell integral of f is non-negative. */
  ghost predicate NonNegativeCells(integrate: Integrator, f: real -> real, grid: seq<real>) {
    forall i :: 0 <= i < |grid| ==> CellIntegral(integrate, f, grid, i) >= 0.0
  }

  /** Sum of a sequence, from the front. */
  function Sum(xs: seq<real>): real {
    if |xs| == 0 then 0.0 else xs[0] + Sum(xs[1..])
  }

  /** What entry i of table t adds: the first entry itself, or the difference to the previous one. */
  function Delta(t: seq<real>, i: int): real
    requires 0 <= i < |t|
  {
    if i == 0 then t[0] else t[i] - t[i - 1]
  }

  /** Running sums of `incs`, built the way `calculate_range` fills its vector: each entry is the
      previous entry plus this cell's increment. */
  function Cumulative(incs: seq<real>): (t: seq<real>)
    ensures |t| == |incs|
    ensures forall i :: 0 <= i < |incs| ==> Delta(t, i) == incs[i]
  {
    if |incs| == 0 then []
    else
      var prev := Cumulative(incs[..|incs| - 1]);
      prev + [(if |prev| == 0 then 0.0 else prev[|prev| - 1]) + incs[|incs| - 1]]
  }

  lemma {:induction false} SumSnoc(xs: seq<real>, x: real)
    ensures Sum(xs + [x]) == Sum(xs) + x
  {
    if |xs| > 0 {
      assert (xs + [x])[1..] == xs[1..] + [x];
      SumSnoc(xs[1..], x);
    }
  }

  /** Entry i of a cumulative table is the sum of the first i+1 increments. */
  lemma {:induction false} CumulativeIsPrefixSum(incs: seq<real>)
    ensures forall i :: 0 <= i < |incs| ==> Cumulative(incs)[i] == Sum(incs[..i + 1])
  {
    var t := Cumulative(incs);
    forall i | 0 <= i < |incs|
      ensures t[i] == Sum(incs[..i + 1])
    {
      PrefixSumAt(incs, i);
    }
  }

  lemma {:induction false} PrefixSumAt(incs: seq<real>, i: nat)
    requires i < |incs|
    ensures Cumulative(incs)[i] == Sum(incs[..i + 1])
  {
    if i == 0 {
      assert incs[..1] == [] + [incs[0]];
      SumSnoc([], incs[0]);
    } else {
      PrefixSumAt(incs, i - 1);
      assert incs[..i + 1] == incs[..i] + [incs[i]];
      SumSnoc(incs[..i], incs[i]);
    }
  }

  /** With non-negative increments a cumulative table is non-negative and non-decreasing. */
  lemma {:induction false} CumulativeMonotone(incs: seq<real>)
    requires forall i :: 0 <= i < |incs| ==> incs[i] >= 0.0
    ensures forall i :: 0 <= i < |incs| ==> Cumulative(incs)[i] >= 0.0
    ensures forall i, j :: 0 <= i <= j < |incs| ==> Cumulative(incs)[i] <= Cumulative(incs)[j]
  {
    var t := Cumulative(incs);
    forall j | 0 <= j < |incs|
      ensures t[j] >= 0.0
      ensures forall i :: 0 <= i <= j ==> t[i] <= t[j]
    {
      MonotoneUpTo(incs, j);
    }
  }

  lemma {:induction false} MonotoneUpTo(incs: seq<real>, j: nat)
    requires forall i :: 0 <= i < |incs| ==> incs[i] >= 0.0
    requires j < |incs|
    ensures Cumulative(incs)[j] >= 0.0
    ensures forall i :: 0 <= i <= j ==> Cumulative(incs)[i] <= Cumulative(incs)[j]
  {
    var t := Cumulative(incs);
    assert Delta(t, j) == incs[j];
    if j > 0 {
      MonotoneUpTo(incs, j - 1);
    }
  }

  /** Increment of the range table over cell i: A times the integral of 1/(dE/dx). */
  function RangeIncrement(b: Builder, key: Key, i: int): real
    requires 0 <= i < |b.grid|
  {
    key.A * CellIntegral(b.integrate, b.rates(key).inverseStopping, b.grid, i)
  }

  function StragglingIncrement(b: Builder, key: Key, i: int): real
    requires 0 <= i < |b.grid|
  {
    key.A * CellIntegral(b.integrate, b.rates(key).stragglingRate, b.grid, i)
  }

  /** Increment of the angular-variance table over cell i: the range increment scaled by
      da2dx at the cell's upper grid energy. */
  function AngularIncrement(b: Builder, key: Key, i: int): real
    requires 0 <= i < |b.grid|
  {
    key.A * b.rates(key).angularRate(b.grid[i]) * CellIntegral(b.integrate, b.rates(key).inverseStopping, b.grid, i)
  }

  function TofIncrement(b: Builder, key: Key, i: int): real
    requires 0 <= i < |b.grid|
    requires key.material.density != 0.0
  {
    CellIntegral(b.integrate, b.rates(key).tofRate, b.grid, i) * 10.0 * key.A / (CLight * key.material.density)
  }

  function RangeIncrements(b: Builder, key: Key): seq<real> {
    seq(|b.grid|, i requires 0 <= i < |b.grid| => RangeIncrement(b, key, i))
  }

  function StragglingIncrements(b: Builder, key: Key): seq<real> {
    seq(|b.grid|, i requires 0 <= i < |b.grid| => StragglingIncrement(b, key, i))
  }

  function AngularIncrements(b: Builder, key: Key): seq<real> {
    seq(|b.grid|, i requires 0 <= i < |b.grid| => AngularIncrement(b, key, i))
  }

  function TofIncrements(b: Builder, key: Key): seq<real>
    requires key.material.density != 0.0
  {
    seq(|b.grid|, i requires 0 <= i < |b.grid| => TofIncrement(b, key, i))
  }

  /** The range table (`calculate_range`). */
  function CalculateRange(b: Builder, key: Key): (t: seq<real>)
    ensures |t| == |b.grid|
    ensures forall i {:trigger Delta(t, i)} :: 0 <= i < |t| ==>
      Delta(t, i) == key.A * CellIntegral(b.integrate, b.rates(key).inverseStopping, b.grid, i)
  {
    Cumulative(RangeIncrements(b, key))
  }

  /** The range-straggling table (`calculate_range_straggling`). */
  function CalculateRangeStraggling(b: Builder, key: Key): (t: seq<real>)
    ensures |t| == |b.grid|
    ensures forall i {:trigger Delta(t, i)} :: 0 <= i < |t| ==>
      Delta(t, i) == key.A * CellIntegral(b.integrate, b.rates(key).stragglingRate, b.grid, i)
  {
    Cumulative(StragglingIncrements(b, key))
  }

  /** The angular-variance table (`calculate_da2dx`). */
  function CalculateDa2dx(b: Builder, key: Key): (t: seq<real>)
    ensures |t| == |b.grid|
    ensures forall i {:trigger Delta(t, i)} :: 0 <= i < |t| ==>
      Delta(t, i) == key.A * b.rates(key).angularRate(b.grid[i]) * CellIntegral(b.integrate, b.rates(key).inverseStopping, b.grid, i)
  {
    Cumulative(AngularIncrements(b, key))
  }

  /** The time-of-flight table (`calculate_tof`). */
  function CalculateTof(b: Builder, key: Key): (t: seq<real>)
    requires key.material.density != 0.0
    ensures |t| == |b.grid|
    ensures forall i {:trigger Delta(t, i)} :: 0 <= i < |t| ==>
      Delta(t, i) == CellIntegral(b.integrate, b.rates(key).tofRate, b.grid, i) * 10.0 * key.A / (CLight * key.material.density)
  {
    Cumulative(TofIncrements(b, key))
  }

  /** The entry the cache stores for `key`: the three tables side by side. */
  function Build(b: Builder, key: Key): DataPoint {
    DataPoint(key, CalculateRange(b, key), CalculateRangeStraggling(b, key), CalculateDa2dx(b, key))
  }

  /** `calculate_DataPoint`: the three tables filled in one pass over the grid, the
      angular-variance increment reusing the range increment of the same cell. */
  method CalculateDataPoint(b: Builder, key: Key) returns (dp: DataPoint)
    ensures dp == Build(b, key)
  {
    var grid := b.grid;
    var range: seq<real> := [];
    var rangeStraggling: seq<real> := [];
    var angularVariance: seq<real> := [];
    ghost var RI := RangeIncrements(b, key);
    ghost var SI := StragglingIncrements(b, key);
    ghost var AI := AngularIncrements(b, key);
    var i := 0;
    while i < |grid|
      invariant 0 <= i <= |grid|
      invariant range == Cumulative(RI[..i])
      invariant rangeStraggling == Cumulative(SI[..i])
      invariant angularVariance == Cumulative(AI[..i])
    {
      var dRange, dStraggling, dAngular := CellIncrements(b, key, i);
      CumulativeStep(range, RI, i, dRange);
      CumulativeStep(angularVariance, AI, i, dAngular);
      CumulativeStep(rangeStraggling, SI, i, dStraggling);
      // the first cell has no previous entry to add to
      range := range + [dRange + (if i == 0 then 0.0 else range[i - 1])];
      angularVariance := angularVariance + [dAngular + (if i == 0 then 0.0 else angularVariance[i - 1])];
      rangeStraggling := rangeStraggling + [dStraggling + (if i == 0 then 0.0 else rangeStraggling[i - 1])];
      i := i + 1;
    }
    assert RI[..i] == RI && SI[..i] == SI && AI[..i] == AI;
    dp := DataPoint(key, range, rangeStraggling, angularVariance);
  }

  /** The three increments of cell i, computed as the loop of `calculate_DataPoint` does: the
      first cell starts at Ezero, and the angular increment scales the range increment. */
  method CellIncrements(b: Builder, key: Key, i: int) returns (dRange: real, dStraggling: real, dAngular: real)
    requires 0 <= i < |b.grid|
    ensures dRange == RangeIncrements(b, key)[i]
    ensures dStraggling == StragglingIncrements(b, key)[i]
    ensures dAngular == AngularIncrements(b, key)[i]
  {
    var grid := b.grid;
    var rates := b.rates(key);
    IncrementsAt(b, key, i);
    var lo := if i == 0 then Ezero else grid[i - 1];
    var res := b.integrate(rates.inverseStopping, lo, grid[i]);
    res := key.A * res;
    dRange := res;
    res := rates.angularRate(grid[i]) * res;
    dAngular := res;
    res := b.integrate(rates.stragglingRate, lo, grid[i]);
    res := key.A * res;
    dStraggling := res;
  }

  /** The increments of cell i in the form the fused loop computes them. */
  lemma IncrementsAt(b: Builder, key: Key, i: int)
    requires 0 <= i < |b.grid|
    ensures var lo := if i == 0 then Ezero else b.grid[i - 1];
            var rates := b.rates(key);
            && RangeIncrements(b, key)[i] == key.A * b.integrate(rates.inverseStopping, lo, b.grid[i])
            && AngularIncrements(b, key)[i] == rates.angularRate(b.grid[i]) * RangeIncrements(b, key)[i]
            && StragglingIncrements(b, key)[i] == key.A * b.integrate(rates.stragglingRate, lo, b.grid[i])
  {
    var rates := b.rates(key);
    MulSwap(rates.angularRate(b.grid[i]), key.A, b.integrate(rates.inverseStopping, CellLow(b.grid, i), b.grid[i]));
  }

  /** Extending the increments by one extends the running sums by one entry. */
  lemma CumulativeSnoc(incs: seq<real>, i: int)
    requires 0 <= i < |incs|
    ensures Cumulative(incs[..i + 1]) == Cumulative(incs[..i]) + [(if i == 0 then 0.0 else Cumulative(incs[..i])[i - 1]) + incs[i]]
  {
    assert incs[..i + 1][..i] == incs[..i];
  }

  /** One step of the fused loop keeps a table equal to the running sums so far. */
  lemma CumulativeStep(t: seq<real>, incs: seq<real>, i: int, x: real)
    requires 0 <= i < |incs|
    requires t == Cumulative(incs[..i]) && x == incs[i]
    ensures t + [x + (if i == 0 then 0.0 else t[i - 1])] == Cumulative(incs[..i + 1])
  {
    CumulativeSnoc(incs, i);
  }

  lemma MulSwap(w: real, a: real, x: real)
    ensures w * (a * x) == a * w * x
  {
  }

  /** The angular-variance increment of every cell is da2dx at the cell's upper energy times
      the range increment of the same cell, the first cell included. */
  lemma AngularIncrementScalesRange(b: Builder, key: Key)
    ensures forall i :: 0 <= i < |b.grid| ==>
              Delta(CalculateDa2dx(b, key), i) == b.rates(key).angularRate(b.grid[i]) * Delta(CalculateRange(b, key), i)
  {
    forall i | 0 <= i < |b.grid|
      ensures Delta(CalculateDa2dx(b, key), i) == b.rates(key).angularRate(b.grid[i]) * Delta(CalculateRange(b, key), i)
    {
      AngularStep(b, key, i);
    }
  }

  /** The angular-variance increment of cell i, factored through the range increment. */
  lemma AngularStep(b: Builder, key: Key, i: int)
    requires 0 <= i < |b.grid|
    ensures Delta(CalculateDa2dx(b, key), i) ==
            b.rates(key).angularRate(b.grid[i]) * (key.A * CellIntegral(b.integrate, b.rates(key).inverseStopping, b.grid, i))
  {
    var x := CellIntegral(b.integrate, b.rates(key).inverseStopping, b.grid, i);
    AngularDelta(b, key, i);
    MulSwap(b.rates(key).angularRate(b.grid[i]), key.A, x);
  }

  lemma AngularDelta(b: Builder, key: Key, i: int)
    requires 0 <= i < |b.grid|
    ensures Delta(CalculateDa2dx(b, key), i) ==
            key.A * b.rates(key).angularRate(b.grid[i]) * CellIntegral(b.integrate, b.rates(key).inverseStopping, b.grid, i)
  {
  }

  /** With non-negative cell integrals, non-negative A and non-negative da2dx at the grid
      energies, the three tables of an entry are non-decreasing. */
  lemma DataPointMonotone(b: Builder, key: Key)
    requires key.A >= 0.0
    requires NonNegativeCells(b.integrate, b.rates(key).inverseStopping, b.grid)
    requires NonNegativeCells(b.integrate, b.rates(key).stragglingRate, b.grid)
    requires forall i :: 0 <= i < |b.grid| ==> b.rates(key).angularRate(b.grid[i]) >= 0.0
    ensures var dp := Build(b, key);
            && (forall i, j :: 0 <= i <= j < |b.grid| ==> dp.range[i] <= dp.range[j])
            && (forall i, j :: 0 <= i <= j < |b.grid| ==> dp.rangeStraggling[i] <= dp.rangeStraggling[j])
            && (forall i, j :: 0 <= i <= j < |b.grid| ==> dp.angularVariance[i] <= dp.angularVariance[j])
  {
    var rates := b.rates(key);
    var ri := RangeIncrements(b, key);
    forall i | 0 <= i < |ri| ensures ri[i] >= 0.0 {
      assert CellIntegral(b.integrate, rates.inverseStopping, b.grid, i) >= 0.0;
    }
    CumulativeMonotone(ri);
    var si := StragglingIncrements(b, key);
    forall i | 0 <= i < |si| ensures si[i] >= 0.0 {
      assert CellIntegral(b.integrate, rates.stragglingRate, b.grid, i) >= 0.0;
    }
    CumulativeMonotone(si);
    var ai := AngularIncrements(b, key);
    forall i | 0 <= i < |ai| ensures ai[i] >= 0.0 {
      var x := CellIntegral(b.integrate, rates.inverseStopping, b.grid, i);
      var w := rates.angularRate(b.grid[i]);
      assert x >= 0.0 && w >= 0.0;
      assert key.A * w >= 0.0;
      assert ai[i] == key.A * w * x;
    }
    CumulativeMonotone(ai);
  }
}
