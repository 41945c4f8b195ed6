/** The exit energy of a projectile after a slab of given thickness (`energy_out`): a
    Newton-like search for the energy e whose remaining range is range(T) - thickness,
    using a slope fixed at the entry energy T. */
module ExitSearch {
  import opened Constants

  /** A spline through a cumulative table: its value and its derivative at any energy. */
  datatype Spline = Spline(value: real -> real, derivative: real -> real)

  /** How the search ends: an exit energy, a particle stopped in the slab, or no convergence
      within the iteration budget. */
  datatype ExitOutcome = Exit(e: real) | Stopped | NoConvergence

  /** The spline's derivative vanishes nowhere, so every division by it is defined. */
  ghost predicate NonFlat(sp: Spline) {
    forall x :: sp.derivative(x) != 0.0
  }

  /** The search can be carried out: either the early "stopped" return is taken, or the slope
      1 / range'(T) exists. */
  predicate Solvable(sp: Spline, T: real, thickness: real) {
    sp.value(T) <= thickness || sp.derivative(T) != 0.0
  }

  /** dE/dx per unit A as the search uses it, always taken at the entry energy T. */
  function Slope(sp: Spline, T: real): (s: real)
    requires sp.derivative(T) != 0.0
    ensures s * sp.derivative(T) == 1.0
  {
    1.0 / sp.derivative(T)
  }

  /** How far the range at e is from the range the slab leaves behind. */
  function Residual(sp: Spline, T: real, thickness: real, e: real): real {
    sp.value(T) - sp.value(e) - thickness
  }

  predicate Converged(sp: Spline, T: real, thickness: real, e: real) {
    Abs(Residual(sp, T, thickness, e)) < Epsilon
  }

  /** One step of the search: move e by the residual times the fixed slope. */
  function Next(sp: Spline, T: real, thickness: real, e: real): (n: real)
    requires sp.derivative(T) != 0.0
    ensures (n - e) * sp.derivative(T) == Residual(sp, T, thickness, e)
  {
    e + Residual(sp, T, thickness, e) * Slope(sp, T)
  }

  /** The k-th iterate: the linear estimate T - thickness / range'(T), then k steps. */
  function Iterate(sp: Spline, T: real, thickness: real, k: nat): real
    requires sp.derivative(T) != 0.0
  {
    if k == 0 then T - thickness * Slope(sp, T)
    else Next(sp, T, thickness, Iterate(sp, T, thickness, k - 1))
  }

  /** The loop from iterate e, after `counter` completed steps. */
  function Run(sp: Spline, T: real, thickness: real, e: real, counter: nat): (o: ExitOutcome)
    requires sp.derivative(T) != 0.0
    requires counter <= MaxIterations
    ensures o.Exit? ==> Converged(sp, T, thickness, o.e)
    ensures o.Exit? ==> o.e == e || o.e >= Ezero
    decreases MaxIterations - counter
  {
    if Converged(sp, T, thickness, e) then Exit(e)
    else
      var next := Next(sp, T, thickness, e);
      if next < Ezero then Stopped
      else if counter + 1 > MaxIterations then NoConvergence
      else Run(sp, T, thickness, next, counter + 1)
  }

  /** The outcome of `energy_out(T, thickness, range_spline)`. */
  function ExitEnergy(sp: Spline, T: real, thickness: real): (o: ExitOutcome)
    requires Solvable(sp, T, thickness)
    ensures o.Exit? ==> Converged(sp, T, thickness, o.e)
    ensures o.Exit? ==> o.e >= Ezero || (sp.derivative(T) != 0.0 && o.e == Iterate(sp, T, thickness, 0))
  {
    if sp.value(T) <= thickness then Stopped
    else Run(sp, T, thickness, Iterate(sp, T, thickness, 0), 0)
  }

  /** The value `energy_out` returns for an outcome: the energy itself, 0 or -1. */
  function AsSentinel(o: ExitOutcome): real {
    match o
    case Exit(e) => e
    case Stopped => 0.0
    case NoConvergence => -1.0
  }

  /** Reading a returned value back as an outcome. */
  function FromSentinel(x: real): ExitOutcome {
    if x == 0.0 then Stopped
    else if x == -1.0 then NoConvergence
    else Exit(x)
  }

  /** `energy_out` as written: the early return, then a loop that checks the residual,
      steps, checks the energy floor and counts. */
  method EnergyOut(T: real, thickness: real, sp: Spline) returns (eout: real)
    requires Solvable(sp, T, thickness)
    ensures eout == AsSentinel(ExitEnergy(sp, T, thickness))
  {
    var range := sp.value(T);
    if range <= thickness {
      return 0.0;
    }
    ghost var outcome := ExitEnergy(sp, T, thickness);
    var dedx := 1.0 / sp.derivative(T);
    var counter: nat := 0;
    var e := T - thickness * dedx;
    assert e == Iterate(sp, T, thickness, 0);
    while true
      invariant counter <= MaxIterations
      invariant range == sp.value(T) && dedx == Slope(sp, T)
      invariant outcome == Run(sp, T, thickness, e, counter)
      decreases MaxIterations - counter
    {
      var r := range - sp.value(e) - thickness;
      if Abs(r) < Epsilon {
        return e;
      }
      RunStep(sp, T, thickness, e, counter);
      var step := -r * dedx;
      StepIsNext(sp, T, thickness, e, r, dedx, step);
      e := e - step;
      if e < Ezero {
        return 0.0;
      }
      dedx := 1.0 / sp.derivative(T);
      counter := counter + 1;
      if counter > MaxIterations {
        return -1.0;
      }
    }
  }

  /** The loop from an iterate that has not converged continues with the next iterate. */
  lemma RunStep(sp: Spline, T: real, thickness: real, e: real, counter: nat)
    requires sp.derivative(T) != 0.0 && counter <= MaxIterations
    requires !Converged(sp, T, thickness, e)
    ensures var next := Next(sp, T, thickness, e);
            Run(sp, T, thickness, e, counter) ==
              if next < Ezero then Stopped
              else if counter + 1 > MaxIterations then NoConvergence
              else Run(sp, T, thickness, next, counter + 1)
  {
  }

  /** `energy_out`'s update e - (-r * dedx) is one step of the search. */
  lemma StepIsNext(sp: Spline, T: real, thickness: real, e: real, r: real, dedx: real, step: real)
    requires sp.derivative(T) != 0.0
    requires r == Residual(sp, T, thickness, e) && dedx == Slope(sp, T) && step == -r * dedx
    ensures e - step == Next(sp, T, thickness, e)
  {
    assert step == -(r * dedx);
  }

  /** Iterate e neither converges nor sends the next iterate below Ezero. */
  predicate Passes(sp: Spline, T: real, thickness: real, e: real)
    requires sp.derivative(T) != 0.0
  {
    !Converged(sp, T, thickness, e) && Next(sp, T, thickness, e) >= Ezero
  }

  /** The first k iterates all pass. */
  ghost predicate Quiet(sp: Spline, T: real, thickness: real, k: nat)
    requires sp.derivative(T) != 0.0
  {
    forall j: nat :: j < k ==> Passes(sp, T, thickness, Iterate(sp, T, thickness, j))
  }

  /** The search converges at iterate k, within the budget. */
  ghost predicate ConvergesAt(sp: Spline, T: real, thickness: real, k: nat)
    requires sp.derivative(T) != 0.0
  {
    k <= MaxIterations && Quiet(sp, T, thickness, k) && Converged(sp, T, thickness, Iterate(sp, T, thickness, k))
  }

  /** The step from iterate k falls below Ezero, within the budget. */
  ghost predicate StopsAt(sp: Spline, T: real, thickness: real, k: nat)
    requires sp.derivative(T) != 0.0
  {
    k <= MaxIterations && Quiet(sp, T, thickness, k)
    && !Converged(sp, T, thickness, Iterate(sp, T, thickness, k))
    && Next(sp, T, thickness, Iterate(sp, T, thickness, k)) < Ezero
  }

  /** Every iterate the budget allows passes. */
  ghost predicate Exhausts(sp: Spline, T: real, thickness: real)
    requires sp.derivative(T) != 0.0
  {
    Quiet(sp, T, thickness, MaxIterations + 1)
  }

  /** The loop from iterate c ends in the first event after c. */
  lemma {:induction false} RunOutcome(sp: Spline, T: real, thickness: real, c: nat)
    requires sp.derivative(T) != 0.0
    requires c <= MaxIterations && Quiet(sp, T, thickness, c)
    ensures var o := Run(sp, T, thickness, Iterate(sp, T, thickness, c), c);
            && (o.Exit? ==> exists k :: c <= k && ConvergesAt(sp, T, thickness, k) && o.e == Iterate(sp, T, thickness, k))
            && (o.Stopped? ==> exists k :: c <= k && StopsAt(sp, T, thickness, k))
            && (o.NoConvergence? ==> Exhausts(sp, T, thickness))
    decreases MaxIterations - c
  {
    var e := Iterate(sp, T, thickness, c);
    if Converged(sp, T, thickness, e) {
      assert ConvergesAt(sp, T, thickness, c);
    } else if Next(sp, T, thickness, e) < Ezero {
      assert StopsAt(sp, T, thickness, c);
    } else {
      assert Passes(sp, T, thickness, e);
      assert Quiet(sp, T, thickness, c + 1) by {
        forall j: nat | j < c + 1
          ensures Passes(sp, T, thickness, Iterate(sp, T, thickness, j))
        {
          if j == c {
            assert Iterate(sp, T, thickness, j) == e;
          }
        }
      }
      if c + 1 <= MaxIterations {
        assert Next(sp, T, thickness, e) == Iterate(sp, T, thickness, c + 1);
        RunOutcome(sp, T, thickness, c + 1);
      }
    }
  }

  /** The three ends of the search exclude one another, and the converging iterate is unique. */
  lemma EventsExclusive(sp: Spline, T: real, thickness: real, k: nat, k': nat)
    requires sp.derivative(T) != 0.0
    ensures ConvergesAt(sp, T, thickness, k) && ConvergesAt(sp, T, thickness, k') ==> k == k'
    ensures !(ConvergesAt(sp, T, thickness, k) && StopsAt(sp, T, thickness, k'))
    ensures !(ConvergesAt(sp, T, thickness, k) && Exhausts(sp, T, thickness))
    ensures !(StopsAt(sp, T, thickness, k) && Exhausts(sp, T, thickness))
  {
  }

  /** `energy_out` ends in exactly one of its three ways, each described without the loop:
      an exit energy is the first iterate within the budget whose residual is below the
      tolerance; "stopped" means the slab is at least the range at T, or an iterate stepped
      below Ezero first; no convergence means all 101 checked iterates passed. */
  lemma ExitEnergyCharacterised(sp: Spline, T: real, thickness: real)
    requires Solvable(sp, T, thickness)
    ensures sp.value(T) <= thickness ==> ExitEnergy(sp, T, thickness) == Stopped
    ensures sp.value(T) > thickness ==>
              && (forall x :: ExitEnergy(sp, T, thickness) == Exit(x) <==>
                    exists k :: ConvergesAt(sp, T, thickness, k) && x == Iterate(sp, T, thickness, k))
              && (ExitEnergy(sp, T, thickness) == Stopped <==> exists k :: StopsAt(sp, T, thickness, k))
              && (ExitEnergy(sp, T, thickness) == NoConvergence <==> Exhausts(sp, T, thickness))
  {
    if sp.value(T) > thickness {
      var o := ExitEnergy(sp, T, thickness);
      RunOutcome(sp, T, thickness, 0);
      forall x | exists k :: ConvergesAt(sp, T, thickness, k) && x == Iterate(sp, T, thickness, k)
        ensures o == Exit(x)
      {
        var k :| ConvergesAt(sp, T, thickness, k) && x == Iterate(sp, T, thickness, k);
        if o.Exit? {
          var k' :| ConvergesAt(sp, T, thickness, k') && o.e == Iterate(sp, T, thickness, k');
          EventsExclusive(sp, T, thickness, k, k');
        } else if o.Stopped? {
          var k' :| StopsAt(sp, T, thickness, k');
          EventsExclusive(sp, T, thickness, k, k');
        } else {
          EventsExclusive(sp, T, thickness, k, k);
        }
      }
      if k :| StopsAt(sp, T, thickness, k) {
        if o.Exit? {
          var k' :| ConvergesAt(sp, T, thickness, k') && o.e == Iterate(sp, T, thickness, k');
          EventsExclusive(sp, T, thickness, k', k);
        } else if o.NoConvergence? {
          EventsExclusive(sp, T, thickness, k, k);
        }
      }
      if Exhausts(sp, T, thickness) {
        if o.Exit? {
          var k' :| ConvergesAt(sp, T, thickness, k') && o.e == Iterate(sp, T, thickness, k');
          EventsExclusive(sp, T, thickness, k', k');
        } else if o.Stopped? {
          var k' :| StopsAt(sp, T, thickness, k');
          EventsExclusive(sp, T, thickness, k', k');
        }
      }
    }
  }

  /** The derivative is only ever read at T: two splines with the same values and the same
      slope at T give the same outcome. */
  lemma OnlyEntrySlopeMatters(sp: Spline, sp': Spline, T: real, thickness: real)
    requires Solvable(sp, T, thickness)
    requires sp'.value == sp.value && sp'.derivative(T) == sp.derivative(T)
    ensures Solvable(sp', T, thickness)
    ensures ExitEnergy(sp', T, thickness) == ExitEnergy(sp, T, thickness)
  {
    if sp.value(T) > thickness {
      SameFirstIterate(sp, sp', T, thickness);
      RunSameSlope(sp, sp', T, thickness, Iterate(sp, T, thickness, 0), 0);
    }
  }

  /** The linear estimate reads the slope at T only, so equal slopes there give equal estimates. */
  lemma SameFirstIterate(sp: Spline, sp': Spline, T: real, thickness: real)
    requires sp.derivative(T) != 0.0 && sp'.derivative(T) == sp.derivative(T)
    ensures Iterate(sp', T, thickness, 0) == Iterate(sp, T, thickness, 0)
  {
  }

  lemma {:induction false} RunSameSlope(sp: Spline, sp': Spline, T: real, thickness: real, e: real, c: nat)
    requires sp.derivative(T) != 0.0 && c <= MaxIterations
    requires sp'.value == sp.value && sp'.derivative(T) == sp.derivative(T)
    ensures Run(sp', T, thickness, e, c) == Run(sp, T, thickness, e, c)
    decreases MaxIterations - c
  {
    if !Converged(sp, T, thickness, e) {
      var next := Next(sp, T, thickness, e);
      assert Next(sp', T, thickness, e) == next;
      if next >= Ezero && c + 1 <= MaxIterations {
        RunSameSlope(sp, sp', T, thickness, next, c + 1);
      }
    }
  }

  /** The linear estimate is returned when its residual is small, with no test against
      Ezero: a range of E + 1 crossed over 1.5 from T = 1 gives the estimate -0.5, whose
      residual is zero, so the search reports an exit at -0.5. */
  lemma ConvergedEstimateBelowEzero()
    ensures var sp := Spline(x => x + 1.0, x => 1.0);
            && ExitEnergy(sp, 1.0, 1.5) == Exit(-0.5)
            && -0.5 < Ezero
  {
    var sp := Spline(x => x + 1.0, x => 1.0);
    assert Iterate(sp, 1.0, 1.5, 0) == -0.5;
    assert Converged(sp, 1.0, 1.5, -0.5);
  }

  /** Through a slab of zero thickness a particle with positive remaining range leaves with
      its entry energy: the linear estimate is T itself and its residual is zero. */
  lemma ZeroThicknessKeepsEnergy(sp: Spline, T: real)
    requires sp.value(T) > 0.0 && sp.derivative(T) != 0.0
    ensures ExitEnergy(sp, T, 0.0) == Exit(T)
  {
    assert Iterate(sp, T, 0.0, 0) == T;
    assert Residual(sp, T, 0.0, T) == 0.0;
  }

  /** Decoding the returned value recovers the outcome exactly unless an exit energy
      coincides with a sentinel. */
  lemma SentinelRoundTrip(o: ExitOutcome)
    ensures FromSentinel(AsSentinel(o)) == o <==> !(o.Exit? && (o.e == 0.0 || o.e == -1.0))
  {
  }

  /** An exit energy at or above Ezero never reads as a sentinel. Only the unchecked linear
      estimate can be an exit energy below Ezero. */
  lemma ExitEnergyDecodes(sp: Spline, T: real, thickness: real)
    requires Solvable(sp, T, thickness)
    requires sp.value(T) > thickness ==> Iterate(sp, T, thickness, 0) >= Ezero
    ensures FromSentinel(AsSentinel(ExitEnergy(sp, T, thickness))) == ExitEnergy(sp, T, thickness)
  {
  }
}
