/** The per-location evaluation of a whole session log and the one-step
    capacity planner: every location whose expected wait exceeds ten
    minutes is re-evaluated with one more charging station. */
module CapacityPlanner {
  import opened ErlangMath
  import opened QueueModel
  import opened ErlangC
  import opened RateEstimator

  /** The planner's trigger: an expected wait above one sixth of an hour. */
  const WaitThreshold: real := 1.0 / 6.0

  /** All sessions logged at one address. */
  datatype LocationLog = LocationLog(address: string, sessions: seq<Session>)

  /** What the evaluation records for one location.
      - Evaluated: estimated rates, the station count used and the queue.
      - InsufficientData: fewer than two sessions, no time span, or a
        total charging time that is not positive. The source never flags
        the first three kinds of location: one session gives a NaN arrival
        rate, and the `ar > 0` guard then sets the wait to 0; no charging
        time gives an infinite service rate and the finite zero-wait result
        (0, 0, 0, 1); no time span gives an infinite arrival rate and a NaN
        wait, which never exceeds the threshold. A negative charging total
        gives the source finite rates and a queue it may flag; the model
        does not cover that case. */
  datatype LocationResult =
    | Evaluated(rates: Rates, servers: nat, queue: QueueResult)
    | InsufficientData

  /** The ways the source's evaluation loop aborts.
      - MissingServerCount: the address has no entry in the station table,
        so `.get` yields None and the arithmetic on it raises.
      - DegenerateQueue: the table lists zero stations, so the queue
        estimator returns its three-element zero tuple, which cannot be
        unpacked into four names. */
  datatype PlanError =
    | MissingServerCount(address: string)
    | DegenerateQueue(address: string)

  datatype Result<T> = Success(value: T) | Failure(error: PlanError)

  /** The station counts the source hard-codes per address. */
  function StationTable(): (table: map<string, nat>)
    ensures forall a | a in table :: table[a] >= 2
  {
    map["1213 Newell Rd" := 3, "250 Hamilton Ave" := 2, "275 Cambridge Ave" := 4,
        "3700 Middlefield Rd" := 3, "445 Bryant St" := 6, "475 Cambridge Ave" := 5,
        "520 Webster St" := 3, "528 High St" := 4]
  }

  /** An evaluated entry is consistent: at least one station, positive
      rates, and a queue that is the M/M/c outcome of exactly those rates
      and that station count. */
  predicate Consistent(r: LocationResult)
  {
    r.Evaluated? ==>
      r.servers >= 1 && r.rates.lambda > 0.0 && r.rates.mu > 0.0
      && r.queue == MmcQueue(r.rates.lambda, r.rates.mu, r.servers)
  }

  predicate WellFormed(m: map<string, LocationResult>)
  {
    forall a | a in m :: Consistent(m[a])
  }

  /** Evaluates one location, in the order the source would fail: the
      station lookup, then the zero-station tuple, then the data. */
  function EvaluateLocation(log: LocationLog, table: map<string, nat>): (r: Result<LocationResult>)
    ensures r.Failure? <==> log.address !in table || table[log.address] == 0
    ensures r.Failure? && log.address !in table ==> r.error == MissingServerCount(log.address)
    ensures r.Failure? && log.address in table ==> r.error == DegenerateQueue(log.address)
    ensures r.Success? ==> Consistent(r.value)
    ensures r.Success? ==> (r.value.InsufficientData? <==> !Estimable(log.sessions))
    ensures r.Success? && r.value.Evaluated? ==>
              r.value.servers == table[log.address]
              && r.value.rates == EstimateRates(log.sessions)
              && !r.value.queue.Degenerate?
  {
    if log.address !in table then Failure(MissingServerCount(log.address))
    else if table[log.address] == 0 then Failure(DegenerateQueue(log.address))
    else if !Estimable(log.sessions) then Success(InsufficientData)
    else
      var rates := EstimateRates(log.sessions);
      Success(Evaluated(rates, table[log.address], MmcQueue(rates.lambda, rates.mu, table[log.address])))
  }

  /** The source groups its sessions by address, so each address occurs once. */
  predicate DistinctAddresses(logs: seq<LocationLog>)
  {
    forall i, j :: 0 <= i < j < |logs| ==> logs[i].address != logs[j].address
  }

  /** Location i is the first one whose evaluation fails, and it fails with e. */
  predicate FirstFailure(logs: seq<LocationLog>, table: map<string, nat>, i: nat, e: PlanError)
    requires i < |logs|
  {
    (forall j :: 0 <= j < i ==> EvaluateLocation(logs[j], table).Success?)
    && EvaluateLocation(logs[i], table) == Failure(e)
  }

  /** The baseline loop: every location evaluated in turn; the first
      location that fails aborts the whole run with its error. */
  function Baseline(logs: seq<LocationLog>, table: map<string, nat>): (r: Result<map<string, LocationResult>>)
    requires DistinctAddresses(logs)
    ensures r.Success? <==> forall i :: 0 <= i < |logs| ==> EvaluateLocation(logs[i], table).Success?
    ensures r.Success? ==> Tabulates(r.value, logs, table)
    ensures r.Failure? ==>
              exists i :: 0 <= i < |logs| && FirstFailure(logs, table, i, r.error)
  {
    if |logs| == 0 then Success(map[])
    else
      var first := EvaluateLocation(logs[0], table);
      if first.Failure? then
        assert FirstFailure(logs, table, 0, first.error);
        Failure(first.error)
      else
        var rest := Baseline(logs[1..], table);
        if rest.Failure? then
          FailureShifts(logs, table, rest.error);
          Failure(rest.error)
        else
          SuccessExtends(logs, table, first.value, rest.value);
          Success(rest.value[logs[0].address := first.value])
  }

  /** The table of all evaluations of a sequence of logs. */
  predicate Tabulates(m: map<string, LocationResult>, logs: seq<LocationLog>, table: map<string, nat>)
  {
    && m.Keys == (set l | l in logs :: l.address)
    && (forall i :: 0 <= i < |logs| ==>
          EvaluateLocation(logs[i], table).Success?
          && m[logs[i].address] == EvaluateLocation(logs[i], table).value)
    && WellFormed(m)
  }

  /** Tabulating the tail and then the head tabulates the whole sequence. */
  lemma SuccessExtends(logs: seq<LocationLog>, table: map<string, nat>,
                       v: LocationResult, rest: map<string, LocationResult>)
    requires |logs| >= 1 && DistinctAddresses(logs)
    requires EvaluateLocation(logs[0], table) == Success(v)
    requires Tabulates(rest, logs[1..], table)
    ensures Tabulates(rest[logs[0].address := v], logs, table)
  {
    var m := rest[logs[0].address := v];
    AddressesOfCons(logs);
    forall i | 0 <= i < |logs|
      ensures m[logs[i].address] == EvaluateLocation(logs[i], table).value
    {
      if i > 0 {
        assert logs[i] == logs[1..][i - 1] && logs[i].address != logs[0].address;
      }
    }
  }

  /** The addresses of a non-empty sequence: its head's and its tail's. */
  lemma AddressesOfCons(logs: seq<LocationLog>)
    requires |logs| >= 1
    ensures (set l | l in logs :: l.address)
            == (set l | l in logs[1..] :: l.address) + {logs[0].address}
  {
    assert logs == [logs[0]] + logs[1..];
  }

  /** If the tail's first failure is at k, the whole sequence's is at
      k + 1, provided the head succeeds. */
  lemma FailureShifts(logs: seq<LocationLog>, table: map<string, nat>, e: PlanError)
    requires |logs| >= 1 && EvaluateLocation(logs[0], table).Success?
    requires exists k :: 0 <= k < |logs| - 1 && FirstFailure(logs[1..], table, k, e)
    ensures exists i :: 0 <= i < |logs| && FirstFailure(logs, table, i, e)
  {
    var k :| 0 <= k < |logs| - 1 && FirstFailure(logs[1..], table, k, e);
    assert forall j :: 1 <= j <= k + 1 ==> logs[j] == logs[1..][j - 1];
    assert FirstFailure(logs, table, k + 1, e);
  }

  /** An entry the planner acts on: evaluated, with an expected wait that
      strictly exceeds the threshold (an unbounded wait always does). */
  predicate Flagged(r: LocationResult, threshold: real)
  {
    r.Evaluated? && Exceeds(r.queue.WaitTime(), threshold)
  }

  /** One more station for an evaluated location with its rates unchanged:
      utilisation drops, the result stays consistent, and a stable queue
      stays stable with a strictly shorter wait. */
  function AddStation(r: LocationResult): (s: LocationResult)
    requires r.Evaluated? && Consistent(r)
    ensures s.Evaluated? && Consistent(s)
    ensures s.rates == r.rates && s.servers == r.servers + 1
    ensures s.queue.Utilisation() < r.queue.Utilisation()
    ensures r.queue.Stable? ==> s.queue.Stable? && s.queue.wq < r.queue.wq
  {
    OneMoreStation(r.rates.lambda, r.rates.mu, r.servers);
    Evaluated(r.rates, r.servers + 1, MmcQueue(r.rates.lambda, r.rates.mu, r.servers + 1))
  }

  /** The queue-level effect of one more station, for positive rates. */
  lemma OneMoreStation(lambda: real, mu: real, c: nat)
    requires lambda > 0.0 && mu > 0.0 && c >= 1
    ensures MmcQueue(lambda, mu, c + 1).Utilisation() < MmcQueue(lambda, mu, c).Utilisation()
    ensures MmcQueue(lambda, mu, c).Stable? ==>
              MmcQueue(lambda, mu, c + 1).Stable?
              && MmcQueue(lambda, mu, c + 1).wq < MmcQueue(lambda, mu, c).wq
  {
    AddServerLowersUtilisation(lambda, mu, c);
    if MmcQueue(lambda, mu, c).Stable? {
      AddServerShortensWait(lambda, mu, c);
    }
  }

  /** The planner: each flagged location gains one station and is
      re-evaluated with its rates; every other entry is left as it was. */
  function Plan(m: map<string, LocationResult>, threshold: real): (p: map<string, LocationResult>)
    requires WellFormed(m)
    ensures p.Keys == m.Keys
    ensures WellFormed(p)
    ensures forall a | a in m && !Flagged(m[a], threshold) :: p[a] == m[a]
    ensures forall a | a in m && Flagged(m[a], threshold) ::
              p[a].Evaluated? && p[a].rates == m[a].rates && p[a].servers == m[a].servers + 1
              && p[a].queue.Utilisation() < m[a].queue.Utilisation()
              && (m[a].queue.Stable? ==> p[a].queue.Stable? && p[a].queue.wq < m[a].queue.wq)
  {
    map a | a in m :: if Flagged(m[a], threshold) then AddStation(m[a]) else m[a]
  }

  /** A consistent evaluated entry is flagged exactly when its location is
      overloaded (lambda >= c mu, an unbounded wait) or its finite wait is
      above the threshold. */
  lemma FlaggedWhen(r: LocationResult, threshold: real)
    requires r.Evaluated? && Consistent(r)
    ensures Flagged(r, threshold) <==>
              r.rates.lambda >= r.servers as real * r.rates.mu
              || (r.queue.Stable? && r.queue.wq > threshold)
  {
  }

  /** After a successful baseline (whose map tabulates the logs, see
      Baseline) every address is in the table and every evaluated entry
      used the station count of its own address, so the planner's fresh
      lookup plus one is the stored count plus one. */
  lemma BaselineServers(logs: seq<LocationLog>, table: map<string, nat>,
                        m: map<string, LocationResult>, a: string)
    requires Tabulates(m, logs, table) && a in m
    ensures a in table && table[a] >= 1
    ensures m[a].Evaluated? ==> m[a].servers == table[a]
  {
    var i :| 0 <= i < |logs| && logs[i].address == a;
    assert EvaluateLocation(logs[i], table).Success?;
  }

  /** What the planner's inner loop does for one flagged address: estimate
      the rates again from the same sessions and evaluate the queue with the
      table's station count plus one. A missing table entry fails as in the
      baseline (None + 1 raises). */
  function Reevaluate(log: LocationLog, table: map<string, nat>): (r: Result<LocationResult>)
    ensures r.Failure? <==> log.address !in table
    ensures r.Success? ==> (r.value.Evaluated? <==> Estimable(log.sessions))
    ensures r.Success? && r.value.Evaluated? ==>
              Consistent(r.value) && r.value.servers == table[log.address] + 1
              && r.value.rates == EstimateRates(log.sessions)
  {
    if log.address !in table then Failure(MissingServerCount(log.address))
    else if !Estimable(log.sessions) then Success(InsufficientData)
    else
      var rates := EstimateRates(log.sessions);
      Success(Evaluated(rates, table[log.address] + 1,
                        MmcQueue(rates.lambda, rates.mu, table[log.address] + 1)))
  }

  /** The map-level planner agrees with the source's re-estimation: for
      every flagged location of a successful baseline, the planned entry is
      exactly what re-estimating from that location's sessions with one
      more station yields. */
  lemma PlanMatchesReevaluation(logs: seq<LocationLog>, table: map<string, nat>,
                                threshold: real, i: nat)
    requires DistinctAddresses(logs) && Baseline(logs, table).Success?
    requires i < |logs| && Flagged(Baseline(logs, table).value[logs[i].address], threshold)
    ensures Reevaluate(logs[i], table).Success?
    ensures Plan(Baseline(logs, table).value, threshold)[logs[i].address]
            == Reevaluate(logs[i], table).value
  {
    var m := Baseline(logs, table).value;
    assert m[logs[i].address] == EvaluateLocation(logs[i], table).value;
  }

  // ---------------------------------------------------------------------
  // Worked examples

  /** One arrival an hour, three services an hour, one station: the wait is
      exactly ten minutes, which the strict test does not flag. */
  lemma ThresholdBoundaryExample()
    ensures MmcQueue(1.0, 3.0, 1) == Stable(1.0 / 3.0, 1.0 / 6.0, 1.0 / 6.0, 2.0 / 3.0)
    ensures !Flagged(Evaluated(Rates(1.0, 3.0), 1, MmcQueue(1.0, 3.0, 1)), WaitThreshold)
  {
    assert Pow(1.0 / 3.0, 1) == 1.0 / 3.0 && Fact(1) == 1.0;
    assert ErlangSum(1.0 / 3.0, 1) == 1.0;
    assert IdleFormula(1.0 / 3.0, 1.0, 1.0 / 3.0, 1.0) == 2.0 / 3.0;
    assert QueueFormula(2.0 / 3.0, 1.0 / 3.0, 1.0 / 3.0, 1.0) == 1.0 / 6.0;
  }

  /** Five arrivals an hour at three stations serving one an hour each: the
      location is overloaded and flagged, and one more station (rho = 5/4)
      is still not enough. */
  lemma OverloadedExample()
    ensures Flagged(Evaluated(Rates(5.0, 1.0), 3, MmcQueue(5.0, 1.0, 3)), WaitThreshold)
    ensures AddStation(Evaluated(Rates(5.0, 1.0), 3, MmcQueue(5.0, 1.0, 3)))
            == Evaluated(Rates(5.0, 1.0), 4, Unstable(5.0 / 4.0))
  {
  }

  /** A location missing from the station table aborts the whole baseline,
      even after an earlier location has been evaluated. The logs are in
      groupby's sorted order ('5' sorts before 'E'); the single session at
      528 High St is too little data to estimate rates from. */
  lemma MissingAddressExample()
    ensures Baseline([LocationLog("528 High St", [Session(8.0, 0.5)]),
                      LocationLog("Elsewhere", [Session(9.0, 0.5)])], StationTable())
            == Failure(MissingServerCount("Elsewhere"))
  {
    var logs := [LocationLog("528 High St", [Session(8.0, 0.5)]),
                 LocationLog("Elsewhere", [Session(9.0, 0.5)])];
    assert "528 High St" in StationTable() && "Elsewhere" !in StationTable();
    assert EvaluateLocation(logs[0], StationTable()) == Success(InsufficientData);
    assert logs[1..] == [logs[1]];
    assert EvaluateLocation(logs[1], StationTable()) == Failure(MissingServerCount("Elsewhere"));
    assert Baseline(logs[1..], StationTable()) == Failure(MissingServerCount("Elsewhere"));
  }

  /** The two-session log (lambda = 1, mu = 5/2) at a one-station location
      evaluates to a 16-minute wait. */
  lemma BaselineExample()
    ensures Baseline([LocationLog("A", [Session(8.0, 0.4), Session(9.0, 0.4)])], map["A" := 1])
            == Success(map["A" := Evaluated(Rates(1.0, 2.5), 1, Stable(0.4, 4.0 / 15.0, 4.0 / 15.0, 0.6))])
  {
    var log := LocationLog("A", [Session(8.0, 0.4), Session(9.0, 0.4)]);
    var table := map["A" := 1];
    ShortSessionExample();
    OneStationQueue();
    assert EvaluateLocation(log, table)
        == Success(Evaluated(Rates(1.0, 2.5), 1, Stable(0.4, 4.0 / 15.0, 4.0 / 15.0, 0.6)));
    BaselineOfOne(log, table);
  }

  /** A single location's baseline is its own evaluation. */
  lemma BaselineOfOne(log: LocationLog, table: map<string, nat>)
    requires EvaluateLocation(log, table).Success?
    ensures Baseline([log], table) == Success(map[log.address := EvaluateLocation(log, table).value])
  {
    assert [log][1..] == [];
  }

  /** That 16-minute wait is flagged; with a second station it falls to
      one minute. */
  lemma PlanExample()
    ensures Plan(map["A" := Evaluated(Rates(1.0, 2.5), 1, Stable(0.4, 4.0 / 15.0, 4.0 / 15.0, 0.6))],
                 WaitThreshold)
            == map["A" := Evaluated(Rates(1.0, 2.5), 2, Stable(0.2, 1.0 / 60.0, 1.0 / 60.0, 2.0 / 3.0))]
  {
    var r := Evaluated(Rates(1.0, 2.5), 1, Stable(0.4, 4.0 / 15.0, 4.0 / 15.0, 0.6));
    OneStationQueue();
    assert Consistent(r) && Flagged(r, WaitThreshold);
    PlanOfOne("A", r, WaitThreshold);
    TwoStationQueue();
  }

  /** The planner acts on each entry by itself. */
  lemma PlanOfOne(a: string, r: LocationResult, threshold: real)
    requires Consistent(r) && Flagged(r, threshold)
    ensures Plan(map[a := r], threshold)
            == map[a := Evaluated(r.rates, r.servers + 1, MmcQueue(r.rates.lambda, r.rates.mu, r.servers + 1))]
  {
  }

  /** M/M/1 with lambda = 1 and mu = 5/2: rho = 2/5, P0 = 3/5 and
      Lq = Wq = 4/15. */
  lemma OneStationQueue()
    ensures MmcQueue(1.0, 2.5, 1) == Stable(0.4, 4.0 / 15.0, 4.0 / 15.0, 0.6)
  {
    OneStationParts();
    assert IdleFormula(0.4, 1.0, 0.4, 1.0) == 0.6;
    assert QueueFormula(0.6, 0.4, 0.4, 1.0) == 4.0 / 15.0;
  }

  lemma OneStationParts()
    ensures MmcQueue(1.0, 2.5, 1) == StableFromParts(1.0, 0.4, 1.0, 0.4, 1.0)
  {
  }

  /** M/M/2 with lambda = 1 and mu = 5/2: rho = 1/5, P0 = 2/3 and
      Lq = Wq = 1/60. */
  lemma TwoStationQueue()
    ensures MmcQueue(1.0, 2.5, 2) == Stable(0.2, 1.0 / 60.0, 1.0 / 60.0, 2.0 / 3.0)
  {
    TwoStationParts();
    assert IdleFormula(0.2, 1.4, 0.16, 2.0) == 2.0 / 3.0;
    assert QueueFormula(2.0 / 3.0, 0.2, 0.16, 2.0) == 1.0 / 60.0;
  }

  lemma TwoStationParts()
    ensures MmcQueue(1.0, 2.5, 2) == StableFromParts(1.0, 0.2, 1.4, 0.16, 2.0)
  {
    assert ErlangSum(0.4, 2) == 1.4;
  }
}
