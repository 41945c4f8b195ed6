/** The logarithmic energy grid every table is aligned to. */
module EnergyGrid {

  /** The grid: its step in log10 space and its energies. */
  datatype EnergyTable = EnergyTable(step: real, values: seq<real>)

  /** The i-th grid energy, 10^(logEmin + i·step); `pow10` is x ↦ 10^x. */
  function GridEnergy(pow10: real -> real, logEmin: real, step: real, i: int): real {
    pow10(logEmin + i as real * step)
  }

  /** The grid of `n` energies from 10^logEmin to 10^logEmax, uniform in log10 space. */
  function MakeEnergyTable(pow10: real -> real, logEmin: real, logEmax: real, n: nat): (t: EnergyTable)
    requires n >= 2
    ensures |t.values| == n
    ensures t.step == (logEmax - logEmin) / (n - 1) as real
    ensures t.values[0] == pow10(logEmin)
    ensures t.values[1] == pow10(logEmin + t.step)
    ensures t.values[n - 1] == pow10(logEmax)
    ensures forall i :: 0 <= i < n ==> t.values[i] == GridEnergy(pow10, logEmin, t.step, i)
  {
    var step := (logEmax - logEmin) / (n - 1) as real;
    var values := seq(n, i => GridEnergy(pow10, logEmin, step, i));
    assert values[n - 1] == GridEnergy(pow10, logEmin, step, n - 1);
    assert logEmin + (n - 1) as real * step == logEmax;
    EnergyTable(step, values)
  }

  /** With a strictly increasing `pow10` and logEmin < logEmax the grid is strictly increasing. */
  lemma EnergyTableIncreasing(pow10: real -> real, logEmin: real, logEmax: real, n: nat)
    requires n >= 2 && logEmin < logEmax
    requires forall x, y :: x < y ==> pow10(x) < pow10(y)
    ensures var t := MakeEnergyTable(pow10, logEmin, logEmax, n);
            forall i, j :: 0 <= i < j < n ==> t.values[i] < t.values[j]
  {
    var t := MakeEnergyTable(pow10, logEmin, logEmax, n);
    assert t.step > 0.0;
    GridIncreasing(pow10, logEmin, t.step, n);
  }

  /** With a strictly increasing `pow10` and a positive step, the first n grid energies
      strictly increase with their index. */
  lemma GridIncreasing(pow10: real -> real, logEmin: real, step: real, n: nat)
    requires step > 0.0
    requires forall x, y :: x < y ==> pow10(x) < pow10(y)
    ensures forall i, j :: 0 <= i < j < n ==>
              GridEnergy(pow10, logEmin, step, i) < GridEnergy(pow10, logEmin, step, j)
  {
    forall i, j | 0 <= i < j < n
      ensures GridEnergy(pow10, logEmin, step, i) < GridEnergy(pow10, logEmin, step, j)
    {
      LogGridIncreasing(logEmin, step, i, j);
    }
  }

  /** Grid exponents increase with the index when the step is positive. */
  lemma LogGridIncreasing(logEmin: real, step: real, i: nat, j: nat)
    requires step > 0.0 && i < j
    ensures logEmin + i as real * step < logEmin + j as real * step
  {
    var d := (j - i) as real;
    assert d * step > 0.0;
    assert j as real * step == i as real * step + d * step;
  }
}
