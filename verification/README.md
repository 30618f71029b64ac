# EV charger queue estimator — a Dafny model

`aa.py` estimates how long electric vehicles queue at the charging locations
of a city. Every location is treated as an M/M/c (Erlang-C) queue:

- **arrival rate** λ: one over the mean gap between consecutive session starts;
- **service rate** μ: one over the mean charging time;
- **c**: the location's number of charging stations, from a fixed table.

From these, `mmc_queue` computes four metrics:

- the utilisation ρ = λ/(cμ);
- the idle probability P0;
- the expected queue length Lq;
- the expected wait Wq.

A one-step capacity planner then gives every location with Wq above ten
minutes one more station and evaluates it again.

The model is in five modules:

| file | module | contents |
|---|---|---|
| `erlang_math.dfy` | `ErlangMath` | exact `a^n`, `n!`, the terms `a^n/n!` and the normalisation sum; the incremental accumulation of that sum, proved equal to the direct sum |
| `queue_model.dfy` | `QueueModel` | `QueueResult = Degenerate \| Stable(rho, lq, wq, p0) \| Unstable(rho)` and `MmcQueue` |
| `erlang_c.dfy` | `ErlangC` | the textbook Erlang-C form, an independent reference for the stable branch; what one more station does to ρ, to the probability of waiting and to Wq |
| `rate_estimator.dfy` | `RateEstimator` | sessions, sorting, gaps, the λ and μ estimates and their closed forms |
| `capacity_planner.dfy` | `CapacityPlanner` | the station table, per-location evaluation, the baseline loop over all locations, and the planner |

Arithmetic is exact `real` arithmetic. Python's `inf` is modelled in two ways:
- the `Unstable` variant;
- the `Extended` value `Unbounded`, which exceeds every bound.

How the model treats the source's behaviours:

- **Degenerate inputs.** When λ = 0, μ = 0 or c = 0, `mmc_queue` returns a
  three-element tuple. Both callers unpack four names, so Python raises.
  - The estimated rates of an estimable location are always positive, so
    the only way a caller reaches this case is a table entry of 0.
  - `EvaluateLocation` models that case as the error `DegenerateQueue`.
- **Missing station count.** `.get` returns None for an address missing
  from the table, and the arithmetic on None raises. This is the error
  `MissingServerCount`.
- **Errors abort the whole run.** Both errors abort the entire baseline
  loop, not just that location, and the first failing location's error is
  the one reported.
- **Thin data.** Fewer than two sessions, a zero time span or no charging
  time makes the source carry NaN or infinite rates. The model records
  `InsufficientData` instead. The source never flags such a location, for
  a different reason in each case:
  - one session: λ is NaN, `NaN > 0` is false, so the `ar > 0` guard of
    aa.py:46 sets Wq to 0;
  - no charging time: μ is inf, ρ is 0, and `mmc_queue` returns the finite
    (0, 0, 0, 1) with Wq = 0;
  - a zero time span: λ is inf, ρ is inf, and Wq = inf/inf is NaN, which
    is never greater than the threshold.
- **Unstable P0.** When ρ ≥ 1 the source computes P0 as `1/inf`, which is
  0, because of where the conditional expression binds. The model
  reproduces this.
- **Reused rates in the planner.** The planner estimates λ and μ again from
  the same sessions. `Plan` reuses the stored rates instead, and
  `PlanMatchesReevaluation` proves that the two agree.

## Model

| member | source | states |
|---|---|---|
| `ErlangMath.Fact` | aa.py:34-36 | c! is at least 1, so the divisions by it in the sum and in the tail term are defined |
| `ErlangMath.PowPositive` | aa.py:34-36 | a^n is positive for a positive load a |
| `ErlangMath.TermPositive` | aa.py:34 | every term a^n/n! of the normalisation sum is positive |
| `ErlangMath.TermStep` | aa.py:34 | consecutive terms differ by the factor a/(n+1), which links the direct sum to an incremental evaluation of it |
| `ErlangMath.ErlangSumAtLeastOne` | aa.py:34 | for a positive load and at least one station the normalisation sum is at least 1 (it holds the n = 0 term) |
| `ErlangMath.AccumulateNormalisation` | aa.py:34 | accumulating terms incrementally yields exactly the sum of a^n/n! over n < c, and at least 1 when a > 0 and c >= 1 |
| `QueueModel.MmcQueue` | aa.py:29-47 | degenerate exactly when a rate or c is zero; otherwise rho = λ/(cμ); stable exactly when λ < cμ (rho < 1, strict) and unstable otherwise, including rho = 1; unstable means unbounded Lq and Wq with P0 = 0; stable means 0 < P0 < 1, Lq > 0, Wq > 0 and Wq·λ = Lq |
| `QueueModel.StableResult` | aa.py:32-46 | below capacity the stable metrics satisfy rho·cμ = λ, 0 < rho < 1, 0 < P0 < 1, positive Lq and Wq, and Little's law Wq·λ = Lq |
| `QueueModel.StableFromParts` | aa.py:36-46 | the stable formulas, given any sum >= 1, power > 0 and factorial >= 1, give a probability P0 strictly between 0 and 1, positive Lq and Wq, and Wq·λ = Lq |
| `QueueModel.UtilisationRelation` | aa.py:32-38 | rho = λ/(cμ) is positive, undoes to λ when multiplied by cμ, and is below 1 exactly when λ < cμ |
| `QueueModel.StableDenominators` | aa.py:36-40 | the divisors c!(1-rho), sum + tail and c!(1-rho)^2 are positive in the stable branch, with sum + tail above 1 |
| `QueueModel.StableAlgebra` | aa.py:36-46 | P0 lies strictly between 0 and 1, Lq and Lq/λ are positive and (Lq/λ)·λ = Lq |
| `QueueModel.WorkedExample` | aa.py:29-47 | λ = 2, μ = 1, c = 3 gives sum 5 and exactly rho = 2/3, Lq = 8/9, Wq = 4/9, P0 = 1/9 |
| `QueueModel.UnstableExample` | aa.py:36-47 | λ = 5, μ = 1, c = 3 is unstable with rho = 5/3, an unbounded wait and P0 = 0 |
| `QueueModel.SaturatedExample` | aa.py:36-38 | at rho = 1 exactly the queue is already unstable |
| `QueueModel.IdleExample` | aa.py:30 | λ = 0 short-circuits to the degenerate result with zero wait |
| `ErlangC.StableWaitIsErlangC` | aa.py:36-46 | in the stable branch Wq equals the textbook C(c, a)/(cμ - λ), with C the Erlang-C probability of waiting |
| `ErlangC.StableIdleIsErlangC` | aa.py:34-37 | in the stable branch P0 equals the textbook 1/(S + q), with S the normalisation sum and q = (a^c/c!)·c/(c - a) the busy weight of Erlang's C formula |
| `ErlangC.StableQueueIsErlangC` | aa.py:36-40 | in the stable branch Lq equals the textbook C(c, a)·rho/(1 - rho) |
| `ErlangC.WaitProbability` | aa.py:36-40 | the Erlang-C probability of having to wait is strictly between 0 and 1 |
| `ErlangC.AddServerLowersUtilisation` | aa.py:139-142 | with the same positive rates, c + 1 stations have strictly lower utilisation than c |
| `ErlangC.AddServerKeepsStable` | aa.py:139-141 | a location that is stable with c stations is stable with c + 1 |
| `ErlangC.WaitProbabilityFalls` | aa.py:34-40 | for a load below c, the probability of waiting falls strictly when a station is added |
| `ErlangC.AddServerShortensWait` | aa.py:139-144 | a stable location's expected wait falls strictly with one more station |
| `RateEstimator.Insert` | aa.py:50 | inserting into a sorted sequence keeps it sorted, adds exactly that element, and puts the smaller of the new and old heads first |
| `RateEstimator.SortAscending` | aa.py:50 | the start times in ascending order: sorted, same length, same multiset of values |
| `RateEstimator.SortedEnds` | aa.py:50-51 | the first and last sorted start are start times of the log and bound every start |
| `RateEstimator.Gaps` | aa.py:51 | n times give n - 1 gaps, gap i being time i+1 minus time i (the leading NaN of `diff` dropped, as `mean` skips it) |
| `RateEstimator.GapsTelescope` | aa.py:51-52 | the gaps add up to the last time minus the first |
| `RateEstimator.GapsSumToSpan` | aa.py:51-52 | the gaps of the sorted starts add up to the span between the earliest and the latest start |
| `RateEstimator.ReciprocalMean` | aa.py:52-55 | one over the mean of n values totalling t > 0 is n/t, and positive |
| `RateEstimator.MeanGapIsSpanPerGap` | aa.py:51-52 | the mean gap is positive and its reciprocal is (n - 1)/span |
| `RateEstimator.ArrivalRate` | aa.py:51-53 | λ is positive and equals (n - 1)/(t_last - t_first) |
| `RateEstimator.ServiceRate` | aa.py:55-56 | μ is positive and equals n/(total charging time) |
| `RateEstimator.EstimateRates` | aa.py:49-56 | both rates positive, λ = (n - 1)/span and μ = n/(total charging time) |
| `RateEstimator.SpanOfTwo` | aa.py:50-52 | a two-session log spans the distance between its starts, whichever order they were logged in |
| `RateEstimator.DurationOfTwo` | aa.py:55 | a two-session log's total charging time is the sum of its two durations |
| `RateEstimator.TwoSessionExample` | aa.py:49-56 | two sessions an hour apart, half an hour each, give λ = 1 and μ = 2 |
| `RateEstimator.ReversedLogExample` | aa.py:50-52 | the same sessions logged in reverse order give the same rates |
| `RateEstimator.ShortSessionExample` | aa.py:49-56 | two sessions an hour apart, 24 minutes each, give λ = 1 and μ = 5/2 |
| `CapacityPlanner.StationTable` | aa.py:11-20 | every address in the hard-coded table has at least two stations |
| `CapacityPlanner.EvaluateLocation` | aa.py:58-64 | fails exactly when the address is missing (MissingServerCount) or has 0 stations (DegenerateQueue); otherwise records InsufficientData exactly when the data is not estimable, else the estimated rates, the table's station count and a non-degenerate queue consistent with them |
| `CapacityPlanner.Baseline` | aa.py:49-64 | succeeds exactly when every location evaluates; on success the map has exactly the logged addresses, each mapped to its own evaluation, all consistent; on failure the error is that of the first failing location |
| `CapacityPlanner.SuccessExtends` | aa.py:49-64 | evaluating one more location in front of an evaluated tail keeps the map complete, correct and consistent |
| `CapacityPlanner.FailureShifts` | aa.py:49-64 | a first failure in the tail is the first failure of the whole sequence when the head succeeds |
| `CapacityPlanner.AddStation` | aa.py:139-145 | one more station with unchanged rates: still consistent, strictly lower utilisation, and a stable queue stays stable with a strictly shorter wait |
| `CapacityPlanner.OneMoreStation` | aa.py:139-144 | for positive rates, c + 1 stations give strictly lower utilisation than c, and a queue stable with c stations stays stable with a strictly shorter wait |
| `CapacityPlanner.Plan` | aa.py:126-145 | same addresses; every unflagged entry unchanged; every flagged one gets the same rates, one more station, strictly lower utilisation and, if it was stable, a strictly shorter wait; consistency preserved |
| `CapacityPlanner.FlaggedWhen` | aa.py:127-128 | an evaluated location is flagged exactly when it is overloaded (λ >= cμ) or its finite wait is strictly above the threshold |
| `CapacityPlanner.BaselineServers` | aa.py:58-60 | in the map of a successful baseline (one that tabulates the logs) every address is in the table with at least one station, and every evaluated entry used exactly that count |
| `CapacityPlanner.Reevaluate` | aa.py:129-141 | re-estimation fails exactly for a missing address; otherwise it evaluates exactly when the data is estimable, with the table's count plus one and the log's own rates |
| `CapacityPlanner.PlanMatchesReevaluation` | aa.py:126-145 | for every flagged location of a successful baseline, the planned entry equals re-estimating from that location's sessions with one more station |
| `CapacityPlanner.ThresholdBoundaryExample` | aa.py:127-128 | λ = 1, μ = 3, c = 1 gives a wait of exactly 1/6 hour, which the strict test does not flag |
| `CapacityPlanner.OverloadedExample` | aa.py:126-141 | λ = 5, μ = 1, c = 3 is flagged, and with four stations (rho = 5/4) it is still unstable |
| `CapacityPlanner.MissingAddressExample` | aa.py:49-60 | with the logs in groupby's sorted order, an address missing from the table aborts the whole baseline with MissingServerCount, even after an earlier location evaluated |
| `CapacityPlanner.BaselineExample` | aa.py:49-64 | the 24-minute two-session log at a one-station location evaluates to rho = 2/5, Lq = Wq = 4/15, P0 = 3/5 |
| `CapacityPlanner.BaselineOfOne` | aa.py:49-64 | the baseline of a single location is that location's evaluation |
| `CapacityPlanner.PlanExample` | aa.py:126-145 | that 16-minute wait is flagged, and with two stations it becomes rho = 1/5, Lq = Wq = 1/60, P0 = 2/3 |
| `CapacityPlanner.PlanOfOne` | aa.py:126-145 | the planner re-evaluates a flagged entry with one more station and its own rates |
| `CapacityPlanner.OneStationQueue` | aa.py:29-47 | λ = 1, μ = 5/2, c = 1 gives exactly rho = 2/5, Lq = Wq = 4/15, P0 = 3/5 |
| `CapacityPlanner.TwoStationQueue` | aa.py:29-47 | λ = 1, μ = 5/2, c = 2 gives exactly rho = 1/5, Lq = Wq = 1/60, P0 = 2/3 |

## Left out

- Reading the CSV and parsing dates and times with pandas (aa.py:5-9) is
  I/O and library behaviour. A session is its start time in hours on a
  common axis plus its charging time in hours.
- pandas `groupby` (aa.py:49, 129) is represented by its result, a
  sequence of logs with distinct addresses as a precondition. groupby
  yields one non-empty log per address in sorted address order; `Baseline`
  accepts any order and empty logs as well, and the order decides only
  which error is reported first.
- `sort_values` (aa.py:9, 50) is modelled as an insertion sort. Only the
  sorted permutation of the start times matters. Equal start times are
  indistinguishable, so stability is irrelevant.
- Console output (aa.py:68-90, 147) and the folium/branca heatmaps
  (aa.py:94-121, 151-175) are printing and visualisation through foreign
  libraries.
- IEEE floating point is replaced by exact rationals. This covers rounding,
  NaN from an empty or one-element mean, and `inf` arithmetic. NaN and inf
  rates become `InsufficientData`. Results that are `inf` become
  `Unstable`/`Unbounded`.
- scipy's `factorial` is modelled as the exact real n!. It returns a float
  in the source.
- QueueModel.MmcQueue: requires non-negative rates, and does not take NaN or
  inf. The `ar > 0` guard of aa.py:46 is therefore always true in its
  non-degenerate branches. In the source the guard also decides the case of
  a NaN λ (a single session), where it sets Wq to 0; the model records that
  location as `InsufficientData` instead.
- CapacityPlanner.EvaluateLocation: a log whose charging times add up to a
  negative total is recorded as `InsufficientData`. The source would
  compute a negative μ, take the stable branch of `mmc_queue` with a
  negative ρ, and could flag the location. For example, starts 8.0 and
  9.0 with durations 1.0 and −4.0 at a three-station location give
  λ = 1, μ = −2/3 and Wq = 1/2 there. Charging times are durations and
  are non-negative in the data, and with a negative μ the normalisation
  sum plus its tail can even be zero, so this case is left out.
- CapacityPlanner.Plan: reuses the stored rates and station count instead of re-reading the
  sessions and the table. Reevaluate and PlanMatchesReevaluation model the
  re-reading and prove that it gives the same entries.
- The degenerate three-element tuple of `mmc_queue` is kept as the
  `Degenerate` result. Its failed four-name unpacking is the error
  `DegenerateQueue`. An unpacking failure for λ = 0 or μ = 0 is not modelled
  separately, because estimated rates are never zero.
