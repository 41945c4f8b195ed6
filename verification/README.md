# catima core, modelled in Dafny

catima computes the energy loss, straggling, angular spread and time of flight of ions
travelling through layers of matter. This project models the control and data flow of its
core over the reals. A C++ `double` becomes a Dafny `real`. The physics formulas, the
integrator, the spline interpolator and `sqrt` are parameters of the model, because their
definitions are not part of this model.

The modules follow the program's structure:

- `Constants` (constants.dfy): `Ezero`, the iteration tolerance and budget, the speed of light, and the `skip_tof` bit.
- `Entities` (entities.dfy): projectile, material, configuration, and the cache key built from them. The key is the projectile without its energy.
- `EnergyGrid` (energy_grid.dfy): the logarithmic energy grid that every table is aligned to.
- `Tables` (tables.dfy): the cumulative tables `calculate_range`, `calculate_range_straggling`, `calculate_da2dx` and `calculate_tof`.
  - There is one generic running-sum builder (`Cumulative`).
  - `calculate_DataPoint` is modelled as a fused loop (`CalculateDataPoint`). It is proved equal to the three separate tables.
- `Storage` (storage.dfy): the table cache (`Reset`, `Add`, `get_index`, `Get`). In these operations the cache is an explicit value that is passed in and returned. `Layers` does not thread it: a slab's tables enter `Evaluate` as spline parameters.
- `ExitSearch` (exit_energy.dfy): `energy_out`, the search for the exit energy.
  - The outcome is tagged: `Exit(e) | Stopped | NoConvergence`.
  - It is related to the values the source returns (`e`, 0 and -1).
  - The method `EnergyOut` follows the source loop statement by statement. It is proved equal to the tagged outcome.
- `Layers` (layers.dfy): `calculate` for one slab (`Evaluate`) and for a stack of slabs (`CalculateStack`).
  - The stack is evaluated through a per-layer evaluator: the four-argument `calculate(p, m, e, c)` the loop calls. Its definition is not part of this model.
  - It is instantiated with the single-slab evaluation at the running energy (`AtEnergy`). This is the assumed meaning of that overload.

Some behaviours of the source become visible as lemmas:

- The exit-energy search takes its slope only at the entry energy (`OnlyEntrySlopeMatters`).
- A search that does not converge returns -1, and `calculate` has no separate failure path: it reads -1 exactly like a stopped particle (`Eout < Ezero`) and reports an energy loss of (T + 1)·A, larger than the entry energy times A (`NonConvergenceReadsAsStopped`, `NonConvergenceOverstatesLoss`).
- Nothing in the table builders enforces monotone tables. The tables are non-decreasing when the cell integrals and rates are non-negative (`DataPointMonotone`).
- Each layer of a stack is entered at the previous layer's `Eout`. After a layer that stops the particle, that is 0, -1 after a non-converging search, or a converged linear estimate below `Ezero`, which the search returns without an `Ezero` test (`ConvergedEstimateBelowEzero`). The next layer is evaluated at that energy (`Chain`).
- The single-slab "stopped" test is `Eout < Ezero`, but the stack's test is `e > Ezero`. An exit energy of exactly `Ezero` therefore gives per-layer sigmas but zero total sigmas (`ExitAtEzeroBoundary`).
- An empty stack reports `Eout = 0` although the projectile keeps its energy (`EmptyStack`).

## Model

| member | source | states |
|---|---|---|
| Entities.SameConfig | catima.cpp:18-24 | configuration equality holds exactly when the two configurations are equal as values |
| Entities.KeyIgnoresEnergy | tests/test_storage.cpp:62-72 | the cache key does not depend on the projectile's energy, and it separates different materials |
| EnergyGrid.MakeEnergyTable | tests/test_storage.cpp:74-80 | the grid has n energies; its step is (logEmax - logEmin)/(n - 1); its first, second and last values are 10^logEmin, 10^(logEmin + step) and 10^logEmax; each value is 10^(logEmin + i·step) |
| EnergyGrid.EnergyTableIncreasing | tests/test_storage.cpp:74-80 | with an increasing 10^x and logEmin < logEmax, the grid energies strictly increase |
| Tables.Cumulative | catima.cpp:249-259 | the running sums have one entry per increment; entry 0 is the first increment and entry i exceeds entry i-1 by increment i |
| Tables.CumulativeIsPrefixSum | catima.cpp:249-259 | entry i of the running sums equals the independent sum of increments 0..i |
| Tables.CumulativeMonotone | catima.cpp:254-259 | with non-negative increments the running sums are non-negative and non-decreasing |
| Tables.CalculateRange | catima.cpp:243-262 | the range table has one entry per grid energy; entry 0 is A·∫[Ezero, E0] of 1/(dE/dx) and each later entry adds A·∫[E(i-1), E(i)] |
| Tables.CalculateRangeStraggling | catima.cpp:265-286 | the same shape as the range table, with the straggling rate as integrand |
| Tables.CalculateDa2dx | catima.cpp:288-304 | entry i adds A·da2dx(E(i))·∫ 1/(dE/dx) over cell i, the first cell starting at Ezero |
| Tables.CalculateTof | catima.cpp:306-321 | entry i adds ∫ over cell i of the time-of-flight rate, times 10·A/(c·density) |
| Tables.CalculateDataPoint | catima.cpp:323-361 | the fused one-pass loop yields exactly the separately defined range, range-straggling and angular-variance tables under the entry's key |
| Tables.CellIncrements | catima.cpp:338-360 | one loop step: the range increment is A times the cell integral from Ezero or E(i-1); the angular increment is da2dx(E(i)) times that range increment; the straggling increment is A times its cell integral |
| Tables.AngularIncrementScalesRange | catima.cpp:349-354 | in every cell, the first included, the angular-variance increment equals da2dx at the cell's upper energy times the range increment |
| Tables.DataPointMonotone | catima.cpp:349-360 | with A ≥ 0, non-negative cell integrals and non-negative da2dx, the range, range-straggling and angular-variance tables are non-decreasing |
| ExitSearch.Run | catima.cpp:134-143 | the loop stops; an exit energy it returns has a residual below the tolerance and is either the starting iterate or at least Ezero |
| ExitSearch.ExitEnergy | catima.cpp:120-145 | the outcome of the search: an exit energy always has a residual below the tolerance, and it is at least Ezero unless it is the unchecked linear estimate |
| ExitSearch.EnergyOut | catima.cpp:120-145 | the imperative loop returns exactly the sentinel value of the tagged outcome |
| ExitSearch.RunOutcome | catima.cpp:134-143 | from any quiet iterate, the loop ends at the first later event: convergence, a step below Ezero, or exhausting the budget |
| ExitSearch.ExitEnergyCharacterised | catima.cpp:129-143 | range(T) ≤ thickness gives Stopped with no iteration; otherwise, in both directions: Exit(x) iff x is the first converging iterate within 100 steps, Stopped iff an iterate steps below Ezero first, NoConvergence iff all 101 checked iterates pass |
| ExitSearch.EventsExclusive | catima.cpp:134-143 | the converging iterate is unique, and convergence, stopping and exhaustion exclude each other |
| ExitSearch.OnlyEntrySlopeMatters | catima.cpp:130-140 | two splines with the same values and the same derivative at T give the same outcome: the slope is never taken at the current iterate |
| ExitSearch.ConvergedEstimateBelowEzero | catima.cpp:133-136 | the first estimate is returned once its residual is below the tolerance, without an Ezero test: range E + 1, thickness 1.5 and T = 1 give an exit energy of -0.5 |
| ExitSearch.ZeroThicknessKeepsEnergy | catima.cpp:129-136 | through zero thickness, with positive range at T, the exit energy is T itself |
| ExitSearch.SentinelRoundTrip | catima.cpp:131-142 | decoding the returned value gives back the outcome, except for an exit energy of exactly 0 or -1 |
| ExitSearch.ExitEnergyDecodes | catima.cpp:133-139 | when the linear estimate is at least Ezero, the returned value decodes to the outcome without ambiguity |
| Layers.Evaluate | catima.cpp:153-208 | Ein = T; range is the range spline at T; dEdxi·range'(T) = A; sigma_r is the root of the range straggling at T; Eout is the search's value; Eloss = (Ein - Eout)·A; Eout < Ezero zeroes dEdxo, sigma_a, tof and sigma_E; otherwise dEdxo·range'(Eout) = A, sigma_E = dEdxo·sqrt(straggling(T) - straggling(Eout))/A, sigma_a is the root of the angular-variance difference, and tof is computed only if skip_tof is clear and the thickness is positive |
| Layers.Assemble | catima.cpp:159-206 | the same quantities as Evaluate for a given exit energy, with the stopped test made on that energy |
| Layers.AtEnergy | catima.cpp:216-217 | the per-layer `calculate(p, m, e, c)` of the stack loop, taken to be the single-slab evaluation with the projectile's energy set to e (an assumed meaning: that overload's definition is not part of this model); at the projectile's own energy it is Evaluate, and at every energy the result is entered at that energy and loses (Ein - Eout)·A |
| Layers.StoppedInsideLayer | catima.cpp:129-206 | a particle whose range at T is at most the thickness leaves with 0, loses T·A, and has no exit-side quantities |
| Layers.NonConvergenceReadsAsStopped | catima.cpp:142-171 | a search that does not converge gives Eout = -1 and the zeroing of dEdxo, sigma_a, sigma_E and tof that a stopped particle gets |
| Layers.NonConvergenceOverstatesLoss | catima.cpp:142-206 | with A > 0, a slab whose exit search does not converge is evaluated to an energy loss of (T + 1)·A, more than T·A |
| Layers.ZeroThicknessLayer | catima.cpp:153-208 | a slab of zero thickness whose range at T is positive loses no energy, leaves at T, and has no time of flight |
| Layers.ZeroThicknessNoSpread | catima.cpp:172-196 | for such a slab with T ≥ Ezero, sigma_a and sigma_E are taken of a zero difference of the cumulative tables |
| Layers.Chain | catima.cpp:216-224 | one result per layer, in order; the first layer is evaluated at T, and each later layer at the Eout of the layer before |
| Layers.ChainSplit | catima.cpp:216-218 | evaluating a + b equals evaluating a, then evaluating b entered at the energy a leaves with |
| Layers.TotalAppend | catima.cpp:219-222 | sums over layers add over a concatenation of stacks |
| Layers.AddLayer | catima.cpp:219-223 | one loop step adds the layer's loss, tof and squared sigmas to the running totals and takes its Eout |
| Layers.CalculateStack | catima.cpp:210-235 | the loop returns the per-layer results of Chain, and totals with Ein = T, Eout = the last layer's Eout, Eloss and tof summed over the layers, and sigmas summed in quadrature, rooted iff the final energy exceeds Ezero and 0 otherwise |
| Layers.EnergyLossTelescopes | catima.cpp:206-220 | over threaded results that each obey the loss formula, the summed loss is (first Ein - last Eout)·A |
| Layers.StackEnergyLoss | catima.cpp:216-223 | for any evaluator that keeps the single-slab books, a non-empty stack's totals obey Eloss = (Ein - Eout)·A |
| Layers.StackLosesAsOneSlab | catima.cpp:210-235 | the stack evaluated by single-slab evaluation at the running energy loses (Ein - Eout)·A overall |
| Layers.EmptyStack | catima.cpp:210-235 | an empty stack reports Ein = T, Eout = 0, no loss and no time of flight |
| Layers.ExitAtEzeroBoundary | catima.cpp:166-233 | a one-slab stack with exit energy exactly Ezero has a layer result with dEdxo ≠ 0 and a computed sigma_a, but total sigmas of 0 |
| Storage.SameEntry | tests/test_storage.cpp:38-44 | two data points are the same entry iff their projectiles agree apart from energy, their materials are equal and their configurations compare equal; the tables are not compared |
| Storage.Count | tests/test_storage.cpp:60-72 | `get_index` is the number of entries, and it is 0 exactly when the cache holds no key |
| Storage.Find | tests/test_storage.cpp:62-72 | the result is -1 when no entry has the key, and otherwise the first entry with the key |
| Storage.Reset | tests/test_storage.cpp:59-60 | after a reset the count is 0 and no key is held |
| Storage.Add | tests/test_storage.cpp:62-72 | a held key leaves the cache unchanged; a new key appends its built entry; the key is held afterwards; the count grows by one exactly for a new key |
| Storage.AddPreserves | tests/test_storage.cpp:62-72 | adding keeps every entry equal to its built tables, and keeps the keys distinct |
| Storage.AddIdempotent | tests/test_storage.cpp:65-72 | adding a key twice is the same as adding it once, and earlier entries keep their places |
| Storage.AddGrowsIffNew | tests/test_storage.cpp:62-72 | the count grows by one iff the key is new, and stays the same iff the key is held |
| Storage.EnergyDoesNotSplitEntries | tests/test_storage.cpp:49-72 | re-adding a projectile at another energy does not grow the cache |
| Storage.Get | catima.cpp:153-158 | the returned entry has the requested key; the cache becomes Add of the key; on a coherent cache the entry is the freshly built one and the cache stays coherent |
| Storage.CacheIsTransparent | catima.cpp:323-361 | with the tables of calculate_DataPoint as maker, a coherent cache answers every lookup with exactly the tables built for the key |
| Storage.DataPointIdentity | tests/test_storage.cpp:22-46 | points for the same projectile and material are the same entry, and a different material is a different entry; after d = c, d matches c and not b; after d = a, d matches b and not c |
| Storage.AddScenario | tests/test_storage.cpp:48-73 | reset, then water, water, graphite, graphite: the count goes 0, 1, 1, 2, 2 |

## Left out

- Physics rate laws: `dedx`, `domega2dx`, `da2dx`, `beta_from_T` and the per-element formulas (catima.cpp:27-64) are foreign formulas. They enter as the rate functions of `Tables.Rates`, and lemmas assume non-negativity where they need it.
- Integrator and spline internals are not part of this model. `integrate(f, a, b)`, a spline's value and its derivative, `sqrt` and 10^x are parameters.
- Floating point: rounding, IEEE infinities and NaN are not modelled. The 1e-5 tolerance is a real-valued threshold.
- Layers.Evaluate: the slab's range, straggling and angular-variance splines are parameters. The `_storage.Get(p, t, c)` call that produces them (catima.cpp:156) is not composed with the evaluation, so neither the single-slab nor the stack `calculate` states how it grows the cache or that the splines are built from `Tables.Build` of the slab's key. `Storage.CacheIsTransparent` states the lookup on its own.
- Layers.Evaluate: requires a range spline whose derivative vanishes nowhere (the `Layer` subset type) and a non-zero A, because the source divides by both and the IEEE infinities those divisions could give are not modelled.
- ExitSearch.ExitEnergy: requires a non-zero range derivative at T when the search is entered, for the same reason. The source computes `dedx` before the early return, and the model computes it after, which has the same effect.
- ExitSearch.EnergyOut: carries the same non-zero-derivative requirement as ExitEnergy.
- Tables.CalculateTof: requires a non-zero density, because the division by c·density is not modelled for density 0.
- Grid length: the tables have one entry per grid energy for any grid. The source always uses `max_datapoints` entries, which come from constants.h, and constants.h is not part of this model. `Ezero` = 0.001, c = 299.792458 and the `skip_tof` bit value 1 come from headers that are not part of this model. They are catima's published values; the proofs only use Ezero > 0.
- `calculate_DataPoint` uses `catima::power` in its straggling integrand, while `calculate_range_straggling` uses `pow`. Both are modelled as the same straggling rate.
- The `THIN_TARGET_APPROXIMATION` branch (catima.cpp:175-192) is a compile-time option that is off by default.
- The message printed on non-convergence (catima.cpp:142) is output only. The -1 it accompanies is modelled.
- Global state: `_storage` and `default_config` become explicit values.
- Cache capacity and eviction, `DataPoint` equality and the body of `Get` belong to storage.h, which is not part of this model.
  - Equality is modelled as key equality.
  - `Get` is modelled as look-up-or-build-and-append.
- `Result` and `MultiResult` (structures.h) are not part of this model. Their fields are taken to start at 0.
- The raw-parameter `calculate` overload (catima.cpp:237-241) is a convenience wrapper.
- The spline-lookup helpers (catima.cpp:67-118) are thin wrappers over `Get` and a spline.
- `energy_out(Projectile, T, Material, Config)` (catima.cpp:147-151) is left out. It looks up the material's tables through the cache and runs the search on the range spline. The search is `ExitSearch.ExitEnergy`; the lookup is not composed with it.
- `calculate_tof_from_E` (catima.cpp:364-372) is a single integral. It enters as the slab's `tofFromE` parameter.
- Configuration equality is a byte comparison in the source, padding included. The model uses structural equality.
