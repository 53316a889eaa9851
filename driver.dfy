/** The main loop of the program: simulate day after day until the requested
    number of days is reached or the statistics have settled. */
module Driver {
  import opened Viruses
  import opened Persons
  import opened Grids
  import opened Populations
  import opened Simulations

  /** The loop stops once the statistics just recorded have been recorded
      this many times. The comment beside the loop speaks of 10 days; the
      code compares with 50. */
  const EquilibriumDays: nat := 50

  // ---------------------------------------------------------------------------
  // The neighbourhood the driver picks

  /** The two kinds of Python value the comparison involves. */
  datatype PyValue = PyInt(i: int) | PyStr(s: string)

  /** Python's `==`: an `int` never equals a `str`. */
  predicate PyEquals(a: PyValue, b: PyValue)
  {
    match (a, b)
    case (PyInt(x), PyInt(y)) => x == y
    case (PyStr(x), PyStr(y)) => x == y
    case _ => false
  }

  /** `number_of_neighbors == 4`: the 4-neighbour day for the `int` 4, the
      8-neighbour day for anything else. */
  function ChosenMode(answer: PyValue): (m: Mode)
    ensures m == Four <==> answer == PyInt(4)
  {
    if PyEquals(answer, PyInt(4)) then Four else Eight
  }

  /** The program's `number_of_neighbors` is the `str` that `input()`
      returns, so the 8-neighbour day is simulated whatever the user types. */
  lemma AlwaysEight(typed: string)
    ensures ChosenMode(PyStr(typed)) == Eight
  {
  }

  // ---------------------------------------------------------------------------
  // The run as a value

  /** `list.count`. */
  function Occurrences<T(==)>(s: seq<T>, x: T): (k: nat)
    ensures k <= |s|
  {
    if s == [] then 0 else Occurrences(s[..|s| - 1], x) + if s[|s| - 1] == x then 1 else 0
  }

  /** A value is counted at least once exactly when it is in the list. */
  lemma {:induction false} OccurrencesPositive<T>(s: seq<T>, x: T)
    ensures Occurrences(s, x) > 0 <==> x in s
  {
    if s != [] {
      assert s == s[..|s| - 1] + [s[|s| - 1]];
      OccurrencesPositive(s[..|s| - 1], x);
    }
  }

  /** `combos.append` adds one occurrence of the appended value and leaves
      the count of every other value alone. */
  lemma OccurrencesAppend<T>(s: seq<T>, y: T)
    ensures forall x :: Occurrences(s + [y], x) == Occurrences(s, x) + if y == x then 1 else 0
  {
    assert (s + [y])[..|s|] == s;
  }

  /** One day's random draws for every day of the run. */
  predicate AreAllDraws(draws: seq<DayDraws>, n: nat)
  {
    forall t :: 0 <= t < |draws| ==> AreDayDraws(draws[t], n)
  }

  /** The population after the first k days of the run. */
  function AfterDays(g: Grid, v: Virus, exposed: Exposure, draws: seq<DayDraws>, k: nat): (r: Grid)
    requires IsSquare(g, |g|) && AreAllDraws(draws, |g|) && k <= |draws|
    ensures IsSquare(r, |g|)
  {
    if k == 0 then g else Day(AfterDays(g, v, exposed, draws, k - 1), v, exposed, draws[k - 1])
  }

  /** `combos` after the first k days: the statistics at the end of each day. */
  function History(g: Grid, v: Virus, exposed: Exposure, draws: seq<DayDraws>, k: nat): (h: seq<Stats>)
    requires IsSquare(g, |g|) && AreAllDraws(draws, |g|) && k <= |draws|
    ensures |h| == k
  {
    if k == 0 then [] else History(g, v, exposed, draws, k - 1) + [GridStats(AfterDays(g, v, exposed, draws, k))]
  }

  /** Entry t of the history is the statistics at the end of day t + 1. */
  lemma {:induction false} HistoryEntries(g: Grid, v: Virus, exposed: Exposure, draws: seq<DayDraws>, k: nat)
    requires IsSquare(g, |g|) && AreAllDraws(draws, |g|) && k <= |draws|
    ensures forall t :: 0 <= t < k ==> History(g, v, exposed, draws, k)[t] == GridStats(AfterDays(g, v, exposed, draws, t + 1))
  {
    if k > 0 {
      HistoryEntries(g, v, exposed, draws, k - 1);
    }
  }

  /** The stop condition: the statistics just recorded have been recorded
      `EquilibriumDays` times. */
  predicate Settled(combos: seq<Stats>)
  {
    |combos| > 0 && Occurrences(combos, combos[|combos| - 1]) == EquilibriumDays
  }

  // ---------------------------------------------------------------------------
  // Properties of a run

  /** The statistics of a later day dominate those of an earlier one. */
  lemma {:induction false} AfterDaysStatsMonotone(g: Grid, v: Virus, exposed: Exposure, draws: seq<DayDraws>, a: nat, b: nat)
    requires IsSquare(g, |g|) && AreAllDraws(draws, |g|) && a <= b <= |draws|
    ensures StatsLe(GridStats(AfterDays(g, v, exposed, draws, a)), GridStats(AfterDays(g, v, exposed, draws, b)))
  {
    if a < b {
      AfterDaysStatsMonotone(g, v, exposed, draws, a, b - 1);
      DayStatsMonotone(AfterDays(g, v, exposed, draws, b - 1), v, exposed, draws[b - 1]);
    }
  }

  /** What a run keeps of every person of an n by n grid: the illness clock
      is within the duration, and a person whose location was not sampled is
      consistent. */
  predicate RunHealthy(g: Grid, n: nat, v: Virus, sample: seq<int>)
  {
    IsSquare(g, n) &&
    forall r, c :: 0 <= r < n && 0 <= c < n ==>
      Bounded(g[r][c], v) && (c * n + r !in sample ==> Wellformed(g[r][c], v))
  }

  /** Over a whole run from a freshly seeded population, every illness clock
      stays within the duration, and every person who was not seeded stays
      consistent, so is never both immune and dead. */
  lemma {:induction false} RunInvariants(n: nat, v: Virus, exposed: Exposure, sample: seq<int>, draws: seq<DayDraws>, k: nat)
    requires v.Valid() && AreAllDraws(draws, n) && k <= |draws|
    ensures RunHealthy(AfterDays(Seeded(HealthyGrid(n), sample), v, exposed, draws, k), n, v, sample)
    ensures var g := AfterDays(Seeded(HealthyGrid(n), sample), v, exposed, draws, k);
      forall r, c :: 0 <= r < n && 0 <= c < n && c * n + r !in sample ==> !(g[r][c].isImmune && !g[r][c].isAlive)
  {
    var g0: Grid := Seeded(HealthyGrid(n), sample);
    var g: Grid := AfterDays(g0, v, exposed, draws, k);
    if k == 0 {
      HealthyWellformed(v);
      forall r, c | 0 <= r < n && 0 <= c < n
        ensures Bounded(g[r][c], v) && (c * n + r !in sample ==> Wellformed(g[r][c], v))
      {
        assert g[r][c] == if c * n + r in sample then Healthy.(isInfected := true) else Healthy;
      }
    } else {
      RunInvariants(n, v, exposed, sample, draws, k - 1);
      var p: Grid := AfterDays(g0, v, exposed, draws, k - 1);
      assert RunHealthy(p, n, v, sample);
      assert g == Day(p, v, exposed, draws[k - 1]);
      DayInvariants(p, v, exposed, draws[k - 1]);
    }
    assert RunHealthy(g, n, v, sample);
    forall r, c | 0 <= r < n && 0 <= c < n && c * n + r !in sample
      ensures !(g[r][c].isImmune && !g[r][c].isAlive)
    {
      WellformedTerminal(g[r][c], v);
    }
  }

  predicate IsSortedStats(s: seq<Stats>)
  {
    forall a, b :: 0 <= a <= b < |s| ==> StatsLe(s[a], s[b])
  }

  /** Every recorded history is ordered: no counter ever goes down. */
  lemma HistoryMonotone(g: Grid, v: Virus, exposed: Exposure, draws: seq<DayDraws>, k: nat)
    requires IsSquare(g, |g|) && AreAllDraws(draws, |g|) && k <= |draws|
    ensures IsSortedStats(History(g, v, exposed, draws, k))
  {
    var h := History(g, v, exposed, draws, k);
    HistoryEntries(g, v, exposed, draws, k);
    forall a, b | 0 <= a <= b < k
      ensures StatsLe(h[a], h[b])
    {
      AfterDaysStatsMonotone(g, v, exposed, draws, a + 1, b + 1);
    }
  }

  /** In an ordered history the occurrences of the last value are the
      entries at the end, and the entry before them differs. */
  lemma {:induction false} LastValueBlock(s: seq<Stats>)
    requires IsSortedStats(s) && |s| > 0
    ensures var k := Occurrences(s, s[|s| - 1]);
      && (forall t :: |s| - k <= t < |s| ==> s[t] == s[|s| - 1])
      && (k < |s| ==> s[|s| - 1 - k] != s[|s| - 1])
  {
    var x := s[|s| - 1];
    var s' := s[..|s| - 1];
    assert s == s' + [x];
    OccurrencesAppend(s', x);
    if s' != [] {
      var y := s'[|s'| - 1];
      assert IsSortedStats(s') by {
        forall a, b | 0 <= a <= b < |s'| ensures StatsLe(s'[a], s'[b]) {
          assert s'[a] == s[a] && s'[b] == s[b];
        }
      }
      if y == x {
        LastValueBlock(s');
      } else {
        forall t | 0 <= t < |s'|
          ensures s'[t] != x
        {
          assert StatsLe(s[t], s[|s| - 2]) && StatsLe(s[|s| - 2], s[|s| - 1]);
        }
        OccurrencesPositive(s', x);
      }
    }
  }

  /** When the loop stops early, the statistics have been the same for the
      last `EquilibriumDays` days and were different the day before. */
  lemma SettledIsSteady(s: seq<Stats>)
    requires IsSortedStats(s) && Settled(s)
    ensures |s| >= EquilibriumDays
    ensures forall t :: |s| - EquilibriumDays <= t < |s| ==> s[t] == s[|s| - 1]
    ensures |s| > EquilibriumDays ==> s[|s| - 1 - EquilibriumDays] != s[|s| - 1]
  {
    LastValueBlock(s);
  }

  /** The converse: an ordered history that ends in exactly
      `EquilibriumDays` equal entries meets the stop condition. With
      SettledIsSteady, the count test is the same as "the last 50 days were
      equal and the day before differed". */
  lemma SteadyIsSettled(s: seq<Stats>)
    requires IsSortedStats(s) && |s| >= EquilibriumDays
    requires forall t :: |s| - EquilibriumDays <= t < |s| ==> s[t] == s[|s| - 1]
    requires |s| > EquilibriumDays ==> s[|s| - 1 - EquilibriumDays] != s[|s| - 1]
    ensures Settled(s)
  {
    LastValueBlock(s);
  }

  // ---------------------------------------------------------------------------
  // The loop

  /** What the driver has recorded: no earlier prefix of `combos` met the
      stop condition, `stop` says whether `combos` itself does, and until it
      does no value has been recorded `EquilibriumDays` times. */
  ghost predicate Recorded(combos: seq<Stats>, stop: bool)
  {
    && (forall k {:trigger Settled(combos[..k])} :: 0 < k < |combos| ==> !Settled(combos[..k]))
    && (stop <==> Settled(combos))
    && (!stop ==> forall x :: Occurrences(combos, x) < EquilibriumDays)
    && (forall x :: Occurrences(combos, x) <= EquilibriumDays)
  }

  /** Recording one more day's statistics keeps `Recorded`, with the stop
      flag of `combos.count(...) == 50`. */
  lemma RecordDay(combos: seq<Stats>, stats: Stats)
    requires Recorded(combos, false)
    ensures Recorded(combos + [stats], Occurrences(combos + [stats], stats) == EquilibriumDays)
  {
    var c := combos + [stats];
    OccurrencesAppend(combos, stats);
    assert c[..|combos|] == combos;
    forall k | 0 < k < |c|
      ensures !Settled(c[..k])
    {
      assert c[..k] == combos[..k];
    }
    assert c[|c| - 1] == stats;
  }

  /** The driver loop. `answer` is `number_of_neighbors`, and `draws[t]` are
      the random draws of day t. `combos` receives the statistics of every
      simulated day; the statistics are read a second time for the stop
      test, as the program does. `exposed` is the neighbour rule that
      `answer` selects. */
  method Run(simulation: Simulation, answer: PyValue, virus: Virus, population: Population, draws: seq<DayDraws>,
             ghost exposed: Exposure)
    returns (daysSimulated: nat, combos: seq<Stats>)
    requires population.Valid() && AreAllDraws(draws, population.gridSize)
    requires Implements(exposed, ChosenMode(answer))
    requires simulation.simulationDuration <= |draws|
    modifies population.Repr
    ensures daysSimulated <= |draws|
    ensures population.Snapshot() ==
      AfterDays(old(population.Snapshot()), virus, exposed, draws, daysSimulated)
    ensures combos == History(old(population.Snapshot()), virus, exposed, draws, daysSimulated)
    ensures daysSimulated <= if simulation.simulationDuration < 0 then 0 else simulation.simulationDuration
    ensures daysSimulated < simulation.simulationDuration ==> Settled(combos)
    ensures forall k {:trigger Settled(combos[..k])} :: 0 < k < daysSimulated ==> !Settled(combos[..k])
    ensures forall x :: Occurrences(combos, x) <= EquilibriumDays
  {
    ghost var g0: Grid := population.Snapshot();
    var stop := false;
    daysSimulated := 0;
    combos := [];
    while daysSimulated < simulation.simulationDuration && !stop
      invariant daysSimulated <= if simulation.simulationDuration < 0 then 0 else simulation.simulationDuration
      invariant population.Snapshot() == AfterDays(g0, virus, exposed, draws, daysSimulated)
      invariant daysSimulated <= |draws|
      invariant combos == History(g0, virus, exposed, draws, daysSimulated)
      invariant Recorded(combos, stop)
      decreases simulation.simulationDuration - daysSimulated
    {
      combos, stop := DriverPass(simulation, answer, virus, population, draws, exposed, g0, daysSimulated, combos);
      daysSimulated := daysSimulated + 1;
    }
  }

  /** The program from its inputs on: build the population, seed it, build
      the virus and the simulation, then run the loop. `ok` is false where
      `random.sample` raises `ValueError` and the program stops. */
  method Outbreak(answer: PyValue, gridSize: nat, infected: int, sample: seq<int>,
                  risk: int, mortality: int, duration: int, simulateDays: int,
                  draws: seq<DayDraws>, ghost exposed: Exposure)
    returns (ok: bool, daysSimulated: nat, combos: seq<Stats>)
    requires 0 <= infected <= gridSize * gridSize ==> IsSample(sample, gridSize * gridSize, infected)
    requires AreAllDraws(draws, gridSize) && simulateDays <= |draws|
    requires Implements(exposed, ChosenMode(answer))
    ensures ok <==> 0 <= infected <= gridSize * gridSize
    ensures !ok ==> daysSimulated == 0 && combos == []
    ensures daysSimulated <= |draws|
    ensures ok ==> (combos ==
      History(Seeded(HealthyGrid(gridSize), sample), NewVirus(risk, mortality, duration), exposed, draws, daysSimulated))
    ensures ok ==> daysSimulated <= simulateDays || daysSimulated == 0
    ensures ok && daysSimulated < simulateDays ==> Settled(combos)
    ensures forall k {:trigger Settled(combos[..k])} :: 0 < k < daysSimulated ==> !Settled(combos[..k])
  {
    var population := new Population(gridSize, infected);
    population.CreatePeople();
    ok := population.InitialInfection(sample);
    if !ok {
      return false, 0, [];
    }
    var virus := NewVirus(risk, mortality, duration);
    var simulation := new Simulation(simulateDays);
    daysSimulated, combos := Run(simulation, answer, virus, population, draws, exposed);
  }

  /** One pass of the driver loop: simulate day `days + 1`, append its
      statistics to `combos`, and test `combos.count(...) == 50` on the
      statistics read once more. */
  method DriverPass(simulation: Simulation, answer: PyValue, virus: Virus, population: Population,
                    draws: seq<DayDraws>, ghost exposed: Exposure, ghost g0: Grid, days: nat, combos: seq<Stats>)
    returns (combos': seq<Stats>, stop: bool)
    requires population.Valid() && IsSquare(g0, population.gridSize) && AreAllDraws(draws, population.gridSize)
    requires Implements(exposed, ChosenMode(answer)) && days < |draws|
    requires population.Snapshot() == AfterDays(g0, virus, exposed, draws, days)
    requires combos == History(g0, virus, exposed, draws, days) && Recorded(combos, false)
    modifies population.Repr
    ensures population.Snapshot() == AfterDays(g0, virus, exposed, draws, days + 1)
    ensures combos' == History(g0, virus, exposed, draws, days + 1) && Recorded(combos', stop)
  {
    var stats := SimulateDay(simulation, answer, virus, population, draws[days], exposed);
    RecordDay(combos, stats);
    combos' := combos + [stats];
    var current := population.GetStats();
    stop := Occurrences(combos', current) == EquilibriumDays;
  }

  /** One pass of the driver loop up to `combos.append`: the day chosen by
      `answer`, then the statistics. */
  method SimulateDay(simulation: Simulation, answer: PyValue, virus: Virus, population: Population, dd: DayDraws,
                     ghost exposed: Exposure)
    returns (stats: Stats)
    requires population.Valid() && AreDayDraws(dd, population.gridSize)
    requires Implements(exposed, ChosenMode(answer))
    modifies population.Repr
    ensures population.Snapshot() == Day(old(population.Snapshot()), virus, exposed, dd)
    ensures stats == GridStats(population.Snapshot())
  {
    if ChosenMode(answer) == Four {
      simulation.SimulateDay4Neighbours(virus, population, exposed, dd);
    } else {
      simulation.SimulateDay8Neighbours(virus, population, exposed, dd);
    }
    stats := population.GetStats();
  }

  /** When a run stops before the requested number of days, the statistics
      of its last `EquilibriumDays` days are all the same. */
  lemma RunSettlesSteadily(g: Grid, v: Virus, exposed: Exposure, draws: seq<DayDraws>, k: nat)
    requires IsSquare(g, |g|) && AreAllDraws(draws, |g|) && k <= |draws|
    requires Settled(History(g, v, exposed, draws, k))
    ensures k >= EquilibriumDays
    ensures forall t :: k - EquilibriumDays < t <= k ==>
      GridStats(AfterDays(g, v, exposed, draws, t)) == GridStats(AfterDays(g, v, exposed, draws, k))
  {
    var h := History(g, v, exposed, draws, k);
    HistoryMonotone(g, v, exposed, draws, k);
    HistoryEntries(g, v, exposed, draws, k);
    SettledIsSteady(h);
    forall t | k - EquilibriumDays < t <= k
      ensures GridStats(AfterDays(g, v, exposed, draws, t)) == GridStats(AfterDays(g, v, exposed, draws, k))
    {
      assert h[t - 1] == h[k - 1];
    }
  }
}
