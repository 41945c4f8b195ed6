/** Evaluation of one slab (`calculate(Projectile, Material, Config)`) and of a stack of
    slabs (`calculate(Projectile, Layers, Config)`). */
module Layers {
  import opened Constants
  import opened Entities
  import opened ExitSearch

  /** What one slab evaluation reports (catima's Result). */
  datatype SlabResult = SlabResult(
    Ein: real, Eout: real, Eloss: real, range: real,
    dEdxi: real, dEdxo: real, sigmaE: real, sigmaA: real, sigmaR: real, tof: real)

  /** A result with every field at its default, zero. */
  const Blank := SlabResult(0.0, 0.0, 0.0, 0.0, 0.0, 0.0, 0.0, 0.0, 0.0, 0.0)

  /** One slab as its evaluation sees it: the splines through the cached range,
      range-straggling and angular-variance tables, the slab thickness, and the time of
      flight between an entry and an exit energy. */
  datatype Slab = Slab(
    range: Spline,
    rangeStraggling: real -> real,
    angularVariance: real -> real,
    thickness: real,
    tofFromE: (real, real) -> real)

  /** A slab whose range derivative vanishes nowhere, so every division of its evaluation is
      defined. */
  type Layer = s: Slab | NonFlat(s.range)
    witness Slab(Spline(x => 0.0, x => 1.0), x => 0.0, x => 0.0, 0.0, (a, b) => 0.0)

  /** The time of flight is computed: the skip bit is clear and the slab is not empty. */
  predicate TofEnabled(c: Config, thickness: real) {
    c.skip & SkipTof == 0 && thickness > 0.0
  }

  /** The exit energy the slab evaluation records, sentinels included. */
  function SlabExit(slab: Slab, T: real): real
    requires slab.range.derivative(T) != 0.0
  {
    AsSentinel(ExitEnergy(slab.range, T, slab.thickness))
  }

  /** The energy-loss formula of one result: (Ein - Eout) times A. */
  predicate LossLaw(r: SlabResult, a: real) {
    r.Eloss == (r.Ein - r.Eout) * a
  }

  /** `calculate` for one slab at the projectile's energy p.T. */
  function Evaluate(slab: Layer, p: Projectile, c: Config, sqrt: real -> real): (r: SlabResult)
    requires p.A != 0.0
    ensures r.Ein == p.T
    ensures r.range == slab.range.value(p.T)
    ensures r.dEdxi * slab.range.derivative(p.T) == p.A
    ensures r.sigmaR == sqrt(slab.rangeStraggling(p.T))
    ensures r.Eout == SlabExit(slab, p.T)
    ensures LossLaw(r, p.A)
    ensures r.Eout < Ezero ==> r.dEdxo == 0.0 && r.sigmaA == 0.0 && r.tof == 0.0 && r.sigmaE == 0.0
    ensures r.Eout >= Ezero ==> r.dEdxo * slab.range.derivative(r.Eout) == p.A
    ensures r.Eout >= Ezero ==>
              r.sigmaE == r.dEdxo * sqrt(slab.rangeStraggling(p.T) - slab.rangeStraggling(r.Eout)) / p.A
    ensures r.Eout >= Ezero ==> r.sigmaA == sqrt(slab.angularVariance(p.T) - slab.angularVariance(r.Eout))
    ensures r.Eout >= Ezero ==> r.tof == (if TofEnabled(c, slab.thickness) then slab.tofFromE(p.T, r.Eout) else 0.0)
  {
    Assemble(slab, p, c, sqrt, SlabExit(slab, p.T))
  }

  /** The slab result for a known exit energy: entry-side quantities at T, exit-side ones at
      eout unless the particle counts as stopped, and the energy loss. */
  function Assemble(slab: Layer, p: Projectile, c: Config, sqrt: real -> real, eout: real): (r: SlabResult)
    requires p.A != 0.0
    ensures r.Ein == p.T && r.Eout == eout
    ensures r.range == slab.range.value(p.T)
    ensures r.dEdxi * slab.range.derivative(p.T) == p.A
    ensures r.sigmaR == sqrt(slab.rangeStraggling(p.T))
    ensures LossLaw(r, p.A)
    ensures eout < Ezero ==> r.dEdxo == 0.0 && r.sigmaA == 0.0 && r.tof == 0.0 && r.sigmaE == 0.0
    ensures eout >= Ezero ==> r.dEdxo * slab.range.derivative(eout) == p.A
    ensures eout >= Ezero ==>
              r.sigmaE == r.dEdxo * sqrt(slab.rangeStraggling(p.T) - slab.rangeStraggling(eout)) / p.A
    ensures eout >= Ezero ==> r.sigmaA == sqrt(slab.angularVariance(p.T) - slab.angularVariance(eout))
    ensures eout >= Ezero ==> r.tof == (if TofEnabled(c, slab.thickness) then slab.tofFromE(p.T, eout) else 0.0)
  {
    var T := p.T;
    var entry := Blank.(
      Ein := T,
      range := slab.range.value(T),
      dEdxi := StoppingPower(p.A, slab.range.derivative(T)),
      Eout := eout,
      sigmaR := sqrt(slab.rangeStraggling(T)));
    var res :=
      if eout < Ezero then entry
      else
        var dEdxo := StoppingPower(p.A, slab.range.derivative(eout));
        entry.(
          dEdxo := dEdxo,
          sigmaE := dEdxo * sqrt(slab.rangeStraggling(T) - slab.rangeStraggling(eout)) / p.A,
          sigmaA := sqrt(slab.angularVariance(T) - slab.angularVariance(eout)),
          tof := if TofEnabled(c, slab.thickness) then slab.tofFromE(T, eout) else 0.0);
    var r := res.(Eloss := (T - eout) * p.A);
    LossLawOf(r, T, eout, r.Eloss, p.A);
    r
  }

  /** The stopping power A / (dR/dE) read off a range spline's derivative. */
  function StoppingPower(a: real, derivative: real): (s: real)
    requires derivative != 0.0
    ensures s * derivative == a
  {
    a / derivative
  }

  /** A single-slab evaluation at a given entry energy: the `calculate(p, m, e, c)` the stack
      evaluation calls for each layer. */
  type SlabEvaluator = (Layer, real) -> SlabResult

  /** Evaluate with the projectile's energy replaced by the given entry energy. At the
      projectile's own energy it is the single-slab evaluation, and at every energy it keeps
      the single-slab energy books. */
  function AtEnergy(p: Projectile, c: Config, sqrt: real -> real): (ev: SlabEvaluator)
    requires p.A != 0.0
    ensures forall s :: ev(s, p.T) == Evaluate(s, p, c, sqrt)
    ensures KeepsBooks(ev, p.A)
  {
    var ev := (s: Layer, e: real) => Evaluate(s, p.(T := e), c, sqrt);
    assert p.(T := p.T) == p;
    assert forall s, e :: ev(s, e) == Evaluate(s, p.(T := e), c, sqrt);
    ev
  }

  /** An evaluator keeps the single-slab energy books: each result is entered at the given
      energy and loses (Ein - Eout) times A. */
  ghost predicate KeepsBooks(ev: SlabEvaluator, a: real) {
    forall s, e :: ev(s, e).Ein == e && LossLaw(ev(s, e), a)
  }

  /** The energy a projectile leaves a run of results with: the last exit energy, or the
      entry energy when there are none. */
  function FinalEnergy(rs: seq<SlabResult>, T: real): real {
    if |rs| == 0 then T else rs[|rs| - 1].Eout
  }

  /** The per-layer results of a stack entered at energy T: the first layer is evaluated at
      T and every later layer at the exit energy of the layer before it. */
  function Chain(layers: seq<Layer>, T: real, ev: SlabEvaluator): (rs: seq<SlabResult>)
    ensures |rs| == |layers|
    ensures |rs| > 0 ==> rs[0] == ev(layers[0], T)
    ensures forall i, j :: 0 <= i && j == i + 1 && j < |rs| ==> rs[j] == ev(layers[j], rs[i].Eout)
    decreases |layers|
  {
    if |layers| == 0 then []
    else
      var n := |layers| - 1;
      var before := Chain(layers[..n], T, ev);
      before + [ev(layers[n], FinalEnergy(before, T))]
  }

  /** One more layer adds its result, evaluated at the energy the layers before it leave
      with. */
  lemma ChainSnoc(layers: seq<Layer>, i: nat, T: real, ev: SlabEvaluator)
    requires i < |layers|
    ensures var before := Chain(layers[..i], T, ev);
            Chain(layers[..i + 1], T, ev) == before + [ev(layers[i], FinalEnergy(before, T))]
  {
    assert layers[..i + 1][..i] == layers[..i];
  }

  /** The totals a stack accumulates over its layers. */
  datatype Quantity = EnergyLoss | TimeOfFlight | AngularVariance | EnergyVariance

  function Contribution(r: SlabResult, q: Quantity): real {
    match q
    case EnergyLoss => r.Eloss
    case TimeOfFlight => r.tof
    case AngularVariance => r.sigmaA * r.sigmaA
    case EnergyVariance => r.sigmaE * r.sigmaE
  }

  /** Sum of a quantity over results, in layer order. */
  function Total(rs: seq<SlabResult>, q: Quantity): real
    decreases |rs|
  {
    if |rs| == 0 then 0.0 else Total(rs[..|rs| - 1], q) + Contribution(rs[|rs| - 1], q)
  }

  /** Adding one result adds its contribution to every total. */
  lemma TotalSnoc(rs: seq<SlabResult>, r: SlabResult)
    ensures forall q :: Total(rs + [r], q) == Total(rs, q) + Contribution(r, q)
  {
    assert (rs + [r])[..|rs|] == rs;
  }

  /** What the stack evaluation reports (catima's MultiResult). */
  datatype StackResult = StackResult(total: SlabResult, results: seq<SlabResult>)

  /** The totals of a stack, stated over its per-layer results: entry energy, last exit
      energy, summed energy loss and time of flight, and the quadrature sums of the sigmas,
      square-rooted when the projectile leaves above Ezero and zero otherwise. The other
      fields keep their defaults. */
  function Totals(layers: seq<Layer>, T: real, ev: SlabEvaluator, sqrt: real -> real): SlabResult {
    var rs := Chain(layers, T, ev);
    var e := FinalEnergy(rs, T);
    Blank.(
      Ein := T,
      Eout := if |layers| == 0 then 0.0 else e,
      Eloss := Total(rs, EnergyLoss),
      tof := Total(rs, TimeOfFlight),
      sigmaA := if e > Ezero then sqrt(Total(rs, AngularVariance)) else 0.0,
      sigmaE := if e > Ezero then sqrt(Total(rs, EnergyVariance)) else 0.0)
  }

  /** `calculate` for a stack entered at energy T: evaluate each layer at the running energy,
      add energy loss and time of flight, add the sigmas in quadrature, and take the square
      roots only when the projectile leaves above Ezero. */
  method CalculateStack(layers: seq<Layer>, T: real, ev: SlabEvaluator, sqrt: real -> real) returns (res: StackResult)
    ensures res.results == Chain(layers, T, ev)
    ensures res.total == Totals(layers, T, ev, sqrt)
  {
    var e := T;
    var total := Blank.(Ein := e);
    var results: seq<SlabResult> := [];
    var i := 0;
    while i < |layers|
      invariant 0 <= i <= |layers|
      invariant results == Chain(layers[..i], T, ev)
      invariant e == FinalEnergy(results, T)
      invariant total == Running(results, T)
    {
      var r := ev(layers[i], e);
      ChainSnoc(layers, i, T, ev);
      e := r.Eout;
      total := AddLayer(total, results, r, T);
      results := results + [r];
      i := i + 1;
    }
    assert layers[..i] == layers;
    if e > Ezero {
      total := total.(sigmaA := sqrt(total.sigmaA), sigmaE := sqrt(total.sigmaE));
    } else {
      total := total.(sigmaA := 0.0, sigmaE := 0.0);
    }
    res := StackResult(total, results);
  }

  /** The totals while a stack is being evaluated: energy loss, time of flight and the
      squared sigmas summed over the results so far, and the exit energy of the last of them
      (0 before the first). */
  function Running(rs: seq<SlabResult>, T: real): SlabResult
  {
    Blank.(
      Ein := T,
      Eout := if |rs| == 0 then 0.0 else FinalEnergy(rs, T),
      Eloss := Total(rs, EnergyLoss),
      tof := Total(rs, TimeOfFlight),
      sigmaA := Total(rs, AngularVariance),
      sigmaE := Total(rs, EnergyVariance))
  }

  /** Adding one layer's result to the running totals: each total grows by the layer's
      contribution and the exit energy becomes the layer's. */
  method AddLayer(total: SlabResult, ghost rs: seq<SlabResult>, r: SlabResult, T: real) returns (t: SlabResult)
    requires total == Running(rs, T)
    ensures t == Running(rs + [r], T)
  {
    TotalSnoc(rs, r);
    t := total;
    t := t.(sigmaA := t.sigmaA + r.sigmaA * r.sigmaA);
    t := t.(Eloss := t.Eloss + r.Eloss);
    t := t.(sigmaE := t.sigmaE + r.sigmaE * r.sigmaE);
    t := t.(tof := t.tof + r.tof);
    t := t.(Eout := r.Eout);
  }

  /** Totals over a concatenation add up. */
  lemma {:induction false} TotalAppend(a: seq<SlabResult>, b: seq<SlabResult>, q: Quantity)
    ensures Total(a + b, q) == Total(a, q) + Total(b, q)
    decreases |b|
  {
    if |b| == 0 {
      assert a + b == a;
    } else {
      var b' := b[..|b| - 1];
      assert (a + b)[..|a + b| - 1] == a + b';
      TotalAppend(a, b', q);
    }
  }

  /** Energy loss telescopes over threaded results: when each result loses (Ein - Eout) times
      A and enters at the exit energy of the one before, the losses add up to the loss
      between the first entry and the last exit. */
  lemma {:induction false} EnergyLossTelescopes(rs: seq<SlabResult>, a: real)
    requires |rs| > 0
    requires forall i, j :: 0 <= i && j == i + 1 && j < |rs| ==> rs[j].Ein == rs[i].Eout
    requires forall i :: 0 <= i < |rs| ==> LossLaw(rs[i], a)
    ensures Total(rs, EnergyLoss) == (rs[0].Ein - rs[|rs| - 1].Eout) * a
    decreases |rs|
  {
    var n := |rs|;
    if n == 1 {
      assert rs[..0] == [];
    } else {
      var front := rs[..n - 1];
      EnergyLossTelescopes(front, a);
      assert rs[n - 1].Ein == rs[n - 2].Eout;
      Telescope(Total(front, EnergyLoss), rs[0].Ein, rs[n - 2].Eout, rs[n - 1].Eout, a, rs[n - 1].Eloss);
    }
  }

  lemma Telescope(loss: real, ein: real, eout: real, out: real, a: real, restLoss: real)
    requires loss == (ein - eout) * a && restLoss == (eout - out) * a
    ensures loss + restLoss == (ein - out) * a
  {
  }

  /** With an evaluator that keeps the single-slab energy books, a non-empty stack reports
      the single-slab energy-loss formula for its totals: (Ein - Eout) times A. */
  lemma StackEnergyLoss(layers: seq<Layer>, T: real, ev: SlabEvaluator, sqrt: real -> real, a: real)
    requires KeepsBooks(ev, a) && |layers| > 0
    ensures LossLaw(Totals(layers, T, ev, sqrt), a)
  {
    var rs := Chain(layers, T, ev);
    var loss := Total(rs, EnergyLoss);
    assert loss == (rs[0].Ein - rs[|rs| - 1].Eout) * a by {
      forall i, j | 0 <= i && j == i + 1 && j < |rs| ensures rs[j].Ein == rs[i].Eout {
        assert rs[j] == ev(layers[j], rs[i].Eout);
      }
      forall i | 0 <= i < |rs| ensures LossLaw(rs[i], a) {
        if i == 0 {
          assert rs[0] == ev(layers[0], T);
        } else {
          assert rs[i] == ev(layers[i], rs[i - 1].Eout);
        }
      }
      EnergyLossTelescopes(rs, a);
    }
    assert rs[0].Ein == T by {
      assert rs[0] == ev(layers[0], T);
    }
    var t := Totals(layers, T, ev, sqrt);
    assert t.Eloss == loss && t.Ein == rs[0].Ein && t.Eout == rs[|rs| - 1].Eout;
    LossLawOf(t, rs[0].Ein, rs[|rs| - 1].Eout, loss, a);
  }

  /** The stack of `calculate` itself, every layer evaluated as one slab at the running
      energy, loses (Ein - Eout) times A overall. */
  lemma StackLosesAsOneSlab(layers: seq<Layer>, p: Projectile, c: Config, sqrt: real -> real)
    requires p.A != 0.0 && |layers| > 0
    ensures LossLaw(Totals(layers, p.T, AtEnergy(p, c, sqrt), sqrt), p.A)
  {
    StackEnergyLoss(layers, p.T, AtEnergy(p, c, sqrt), sqrt, p.A);
  }

  lemma LossLawOf(t: SlabResult, ein: real, eout: real, loss: real, a: real)
    requires t.Eloss == loss && t.Ein == ein && t.Eout == eout && loss == (ein - eout) * a
    ensures LossLaw(t, a)
  {
  }

  /** An empty stack leaves the exit energy at its default, 0, with no loss and no time of
      flight, although the projectile keeps its energy. */
  lemma EmptyStack(T: real, ev: SlabEvaluator, sqrt: real -> real)
    ensures var t := Totals([], T, ev, sqrt);
            && t.Ein == T && t.Eout == 0.0 && t.Eloss == 0.0 && t.tof == 0.0
            && t.sigmaA == (if T > Ezero then sqrt(0.0) else 0.0)
  {
  }

  /** A stack splits at any point: the second part is entered at the energy the first leaves
      with, and its results follow those of the first. */
  lemma {:induction false} ChainSplit(a: seq<Layer>, b: seq<Layer>, T: real, ev: SlabEvaluator)
    ensures Chain(a + b, T, ev) == Chain(a, T, ev) + Chain(b, FinalEnergy(Chain(a, T, ev), T), ev)
    decreases |b|
  {
    var ra := Chain(a, T, ev);
    var e := FinalEnergy(ra, T);
    if |b| == 0 {
      assert a + b == a;
    } else {
      var n := |b| - 1;
      var b' := b[..n];
      assert (a + b)[..|a| + n] == a + b';
      assert (a + b)[|a| + n] == b[n];
      ChainSplit(a, b', T, ev);
      var rb' := Chain(b', e, ev);
      assert FinalEnergy(ra + rb', T) == FinalEnergy(rb', e);
    }
  }

  /** A single slab whose particle stops inside it (remaining range at most the thickness):
      exit energy 0, the whole energy lost, and no exit-side quantities. */
  lemma StoppedInsideLayer(slab: Layer, p: Projectile, c: Config, sqrt: real -> real)
    requires p.A != 0.0
    requires slab.range.value(p.T) <= slab.thickness
    ensures var r := Evaluate(slab, p, c, sqrt);
            && r.Eout == 0.0 && r.Eloss == p.T * p.A
            && r.dEdxo == 0.0 && r.sigmaA == 0.0 && r.sigmaE == 0.0 && r.tof == 0.0
  {
  }

  /** A search that does not converge records Eout = -1, which is below Ezero, so the slab
      result is zeroed exactly as for a stopped particle. */
  lemma NonConvergenceReadsAsStopped(slab: Layer, p: Projectile, c: Config, sqrt: real -> real)
    requires p.A != 0.0
    requires ExitEnergy(slab.range, p.T, slab.thickness) == NoConvergence
    ensures var r := Evaluate(slab, p, c, sqrt);
            && r.Eout == -1.0 && r.Eout < Ezero
            && r.dEdxo == 0.0 && r.sigmaA == 0.0 && r.sigmaE == 0.0 && r.tof == 0.0
  {
  }

  /** A result that obeys the loss formula with A > 0 and records the non-convergence value
      -1 as its exit energy reports a loss of (Ein + 1)·A, more than its entry energy times A. */
  lemma SentinelExitOverstatesLoss(r: SlabResult, a: real)
    requires a > 0.0 && r.Eout == -1.0 && LossLaw(r, a)
    ensures r.Eloss == (r.Ein + 1.0) * a
    ensures r.Eloss > r.Ein * a
  {
  }

  /** After a search that does not converge, the slab evaluation reports an energy loss of
      (T + 1)·A, more than the entry energy times A. */
  lemma NonConvergenceOverstatesLoss(slab: Layer, p: Projectile, c: Config, sqrt: real -> real)
    requires p.A > 0.0
    requires ExitEnergy(slab.range, p.T, slab.thickness) == NoConvergence
    ensures Evaluate(slab, p, c, sqrt).Eloss == (p.T + 1.0) * p.A
    ensures Evaluate(slab, p, c, sqrt).Eloss > p.T * p.A
  {
    var r := Evaluate(slab, p, c, sqrt);
    NonConvergenceReadsAsStopped(slab, p, c, sqrt);
    assert r.Ein == p.T && r.Eout == -1.0 && LossLaw(r, p.A);
    SentinelExitOverstatesLoss(r, p.A);
  }

  /** A slab of zero thickness passes the projectile through unchanged whenever its range at
      the entry energy is positive: no energy loss and, the slab being empty, no time of
      flight. */
  lemma ZeroThicknessLayer(slab: Layer, p: Projectile, c: Config, sqrt: real -> real)
    requires p.A != 0.0
    requires slab.thickness == 0.0 && slab.range.value(p.T) > 0.0
    ensures var r := Evaluate(slab, p, c, sqrt);
            r.Eout == p.T && r.Eloss == 0.0 && r.tof == 0.0
  {
    ZeroThicknessKeepsEnergy(slab.range, p.T);
  }

  /** Above Ezero, a slab of zero thickness adds no spread: both sigmas are taken of a zero
      difference of the cumulative tables. */
  lemma ZeroThicknessNoSpread(slab: Layer, p: Projectile, c: Config, sqrt: real -> real)
    requires p.A != 0.0 && p.T >= Ezero
    requires slab.thickness == 0.0 && slab.range.value(p.T) > 0.0
    ensures var r := Evaluate(slab, p, c, sqrt);
            && r.sigmaA == sqrt(0.0)
            && r.sigmaE == r.dEdxo * sqrt(0.0) / p.A
  {
    ZeroThicknessKeepsEnergy(slab.range, p.T);
  }

  /** The two stopped thresholds disagree at Ezero itself: a one-slab stack whose exit energy
      is exactly Ezero gets a layer result with its exit-side quantities computed, yet stack
      totals whose sigmas are zero. */
  lemma ExitAtEzeroBoundary(slab: Layer, p: Projectile, c: Config, sqrt: real -> real)
    requires p.A != 0.0
    requires SlabExit(slab, p.T) == Ezero
    ensures var ev := AtEnergy(p, c, sqrt);
            var r := Chain([slab], p.T, ev)[0];
            var t := Totals([slab], p.T, ev, sqrt);
            && r == Evaluate(slab, p, c, sqrt)
            && r.dEdxo != 0.0
            && r.sigmaA == sqrt(slab.angularVariance(p.T) - slab.angularVariance(Ezero))
            && t.Eout == Ezero && t.sigmaA == 0.0 && t.sigmaE == 0.0
  {
    var ev := AtEnergy(p, c, sqrt);
    assert p.(T := p.T) == p;
    var r := Evaluate(slab, p, c, sqrt);
    assert ev(slab, p.T) == r;
    assert [slab][..0] == [];
    assert Chain([slab], p.T, ev) == [r];
  }
}
