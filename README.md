# Outbreak simulator: a verified model of the simulation engine

`outbreak_gui.py` simulates an epidemic on a square grid. Each cell holds a
person. A virus has a per-contact risk, a mortality and a duration. Each day
the program does three things:

- It advances the illness of every infected person, or ends it.
- It sweeps the grid row by row. Each person with an infected neighbour is
  exposed to the virus, either in the 4-neighbourhood or in the
  8-neighbourhood.
- It records the population statistics: ever infected, immune, dead.

The driver loop stops after the requested number of days. It stops earlier
once the statistics just recorded have been seen 50 times.

This project models that engine in Dafny and proves properties of the model.

- **Stateful parts are classes.** `Person`, `Population` and `Simulation`
  are classes whose methods update fields in place, as the Python objects
  do. The 2d list of people is a `seq<seq<Person>>` of distinct objects.
- **Pure specification.** Module `Grids` works on a value snapshot of the
  grid, `seq<seq<Health>>`. Every method is proved against a function of
  that snapshot. Lemmas about those functions state what the program
  promises.
- **Randomness is an input.** Each `random.randint(1, 100)` is supplied as
  a draw. A day gets two draw grids: one for the resolution pass and one
  for the contact pass. Each pass draws at most once per person, so one
  value per cell covers every run the program can make.
- **Sampling is an input too.** `random.sample(range(n * n), k)` is supplied
  as a sequence of `k` distinct locations in `[0, n * n)` (`IsSample`).
- **The neighbour rule is a value.** The contact sweep and
  `AfterDays`/`History` take the rule as an `Exposure` value: a function
  from grid and cell to "exposed". `Implements(exposed, mode)` says the
  value is the 4- or 8-neighbour rule. `Rule(mode)` is such a value
  (`RuleImplements`).

Files and modules:

| file | module | what |
|---|---|---|
| `virus.dfy` | `Viruses` | `Virus.__init__` clamping |
| `person.dfy` | `Persons` | `Health` value, per-person transitions, `class Person` |
| `grid.dfy` | `Grids` | `list_get` on snapshots, neighbourhoods, the two passes of a day, statistics, seeding |
| `populations.dfy` | `Populations` | `list_get`, and `class Population` (`create_people`, `initial_infection`, `get_stats`) |
| `simulation.dfy` | `Simulations` | `class Simulation` (`increase_day`, `simulate_day_4_neighbors`, `simulate_day_8_neighbors`) |
| `driver.dfy` | `Driver` | the main loop with its stop rule, and the choice of neighbourhood |
| `graphics.dfy` | `Graphics` | the colour precedence of `graphics` |

Where the code and its descriptions disagree, the model follows the code:

- **Edges wrap on one side.** `list_get` uses Python indexing, so index -1
  wraps to the last row or column. Only index n falls off the grid and gives
  a healthy stand-in person. The top and left edges therefore wrap; the
  bottom and right edges do not (`LookupNeverFails`, and one lemma per
  corner: `CornerTopLeft`, `CornerTopRight`, `CornerBottomLeft`,
  `CornerBottomRight`). On a 1 by 1 grid the lone person is their own
  neighbour (`LoneNeighbour`).
- **50 days, not 10.** The comment above the stop rule speaks of 10 days;
  the code counts to 50 (`EquilibriumDays`).
- **The 8-neighbour day always runs.** The driver compares the `str` from
  `input()` with the `int` 4. That comparison is never true (`AlwaysEight`).
- **Seeded people start outside the "ever infected" count.**
  `initial_infection` sets only `is_infected`, and the seed location is
  transposed: `people[loc % n][loc // n]`. A seeded person is left out of
  the count only until a contact succeeds. `virus_contact` still applies to
  them because `was_infected` is false, and a successful contact sets it
  (`SeededCountedOnContact`, `SeededJoinsCount`). A seeded person can also
  be infected again after recovering, and can end both immune and dead
  (`SeededCanEndImmuneAndDead`). A seeded person who dies is still open to
  contact: a contact sets `is_infected` on the dead person, who is then
  counted as ever infected (`SeededInfectedAfterDeath`).
- **The stop rule cannot fire on an oscillation.** It counts occurrences
  anywhere in the history, not consecutive days. But no counter ever
  decreases (`HistoryMonotone`). So 50 occurrences are always the last 50
  days, and the day before them differed (`SettledIsSteady`,
  `RunSettlesSteadily`). Conversely, 50 equal final days after a different
  one always stop the loop (`SteadyIsSettled`).

## Model

| member | source | states |
|---|---|---|
| Viruses.ClampPercent | outbreak_gui.py:100-101 | the result is between 0 and 100: `abs(x)` when that is at most 100, and 100 otherwise |
| Viruses.NewVirus | outbreak_gui.py:85-102 | the virus is valid. A percentage in [0, 100] is kept, one in [-100, 0) is negated, anything else becomes 100. The duration is `abs(duration)` |
| Viruses.NewVirusNormalises | outbreak_gui.py:100-102 | rebuilding a valid virus from its own fields gives it back, and flipping the signs of the arguments changes nothing |
| Viruses.NewVirusExample | outbreak_gui.py:89-102 | (-150, 500, -7) becomes (100, 100, 7) |
| Persons.SicknessEnded | outbreak_gui.py:132-140 | off the last day nothing changes. On the last day the person stops being infected. A draw at most the mortality kills, and a higher one makes the person immune. Nothing is undone |
| Persons.AfterContact | outbreak_gui.py:142-148 | someone ever infected is untouched. Otherwise a draw at most the risk infects and marks the person as ever infected, and a higher draw changes nothing |
| Persons.AfterDay | outbreak_gui.py:185-188 | an infected person before the last day gains a day, and one on the last day resolves. Anyone else is unchanged, including an infected person past the duration (the `elif`) |
| Persons.HealthyWellformed | outbreak_gui.py:122-130 | a new person is consistent for every valid virus |
| Persons.WellformedTerminal | outbreak_gui.py:132-148 | a consistent person is never both immune and dead, and a dead one is not infected |
| Persons.StepsPreserve | outbreak_gui.py:132-148 | a day step and a contact keep the illness clock within the duration, and keep a consistent person consistent |
| Persons.ExtremePercentages | outbreak_gui.py:136-148 | risk 100 always infects a susceptible person, and risk 0 never does. Mortality 100 always kills at the end, and mortality 0 never does |
| Persons.ContactIdempotent | outbreak_gui.py:142-148 | repeating a contact with the same draw changes nothing more: no one is infected twice |
| Persons.SeededCanEndImmuneAndDead | outbreak_gui.py:38-44 | a person seeded with only `is_infected` can recover, be re-infected and die, ending both immune and dead |
| Persons.SeededInfectedAfterDeath | outbreak_gui.py:132-148 | a seeded person who dies at the end of the illness is still contacted, since `was_infected` was never set: they end dead, infected and ever infected |
| Persons.SeededCountedOnContact | outbreak_gui.py:142-148 | a seeded person is not yet ever infected, but a contact with a draw at most the risk still applies to them and marks them ever infected |
| Persons.Person.constructor | outbreak_gui.py:122-130 | a new person is healthy: not infected, never infected, not immune, alive, day 0 |
| Persons.Person.EndOfSickness | outbreak_gui.py:132-140 | the person's new state is `SicknessEnded` of the old one with the draw |
| Persons.Person.VirusContact | outbreak_gui.py:142-148 | the person's new state is `AfterContact` of the old one with the draw |
| Grids.PyIndex | outbreak_gui.py:154 | a Python index from -len to len - 1 names the element k, or len + k for a negative k |
| Grids.Lookup | outbreak_gui.py:152-156 | reference definition of `list_get` on a snapshot: the element Python's indexing names, or a healthy person where it raises `IndexError`. It has no contract of its own; `LookupNeverFails` states its behaviour |
| Grids.LookupNeverFails | outbreak_gui.py:152-156 | for indices -1 to n: inside the grid the element is returned, with -1 wrapping to the last row or column. Index n yields a healthy person. An infected result always comes from inside the grid |
| Grids.CornerBottomRight | outbreak_gui.py:207-242 | the bottom-right corner is exposed exactly when the cell above or to the left is infected, or in the 8-neighbourhood also the cell diagonally up-left. Its other neighbours are healthy stand-ins |
| Grids.CornerTopLeft | outbreak_gui.py:207-242 | the top-left corner sees the last row and the last column through the wrap: four people in the 4-neighbourhood, and eight in the 8-neighbourhood, five of them through the wrap |
| Grids.CornerTopRight | outbreak_gui.py:207-242 | the top-right corner sees (n-1, n-1) through the wrap, plus (1, n-1) and (0, n-2). In the 8-neighbourhood it also sees (n-1, n-2) and (1, n-2); the column to the right is off the grid |
| Grids.CornerBottomLeft | outbreak_gui.py:207-242 | the bottom-left corner sees (n-2, 0), (n-1, n-1) through the wrap, and (n-1, 1). In the 8-neighbourhood it also sees (n-2, n-1) and (n-2, 1); the row below is off the grid |
| Grids.LoneNeighbour | outbreak_gui.py:207-242 | on a 1 by 1 grid the lone person is exposed, in either neighbourhood, exactly when they are infected themself |
| Grids.NeighbourFlags | outbreak_gui.py:207-240 | reference definition of the `neighbors` list: up, down, left, right, then for the 8-neighbourhood the four diagonals in the code's order, each read with `list_get`. It has no contract of its own; the corner lemmas evaluate it |
| Grids.Exposed | outbreak_gui.py:212 | reference definition of `any(neighbors)`. It has no contract of its own; `Implements` ties the sweep's rule to it |
| Grids.RuleImplements | outbreak_gui.py:207-242 | the rule built from a neighbourhood implements it, so the sweep's contracts apply to the code's own neighbour test |
| Grids.ResolvePass | outbreak_gui.py:183-188 | `increase_day` changes every person independently: each cell becomes `AfterDay` of itself with its draw |
| Grids.VisitCells | outbreak_gui.py:206-213 | one step of the sweep changes only the visited person, by one contact when a neighbour is infected |
| Grids.Visit | outbreak_gui.py:206-213 | reference definition of one pass of the inner loop body. Its contract keeps the grid's shape; `VisitCells` states what it changes |
| Grids.SweepFrom | outbreak_gui.py:204-213 | reference definition of the rest of the row-major sweep from cell (i, j). Its contract keeps the grid square. `SweepCellVisit` states what it does to each cell: a contact exactly when the cell is exposed in the grid as the earlier visits left it. `SweepFromKeepsDone` says that cells already passed are left alone |
| Grids.Day | outbreak_gui.py:190-243 | one simulated day: the resolution pass, then the sweep. Its contract keeps the grid square. `DayCellVisit`, `DayInvariants` and `DayStatsMonotone` state what it does |
| Grids.SweepFromKeepsDone | outbreak_gui.py:204-213 | the rest of the sweep leaves the people already visited alone |
| Grids.SweepFromCell | outbreak_gui.py:204-213 | after the sweep each person either is unchanged or has had exactly one contact, with their own draw. This lemma does not say when the contact happens; `SweepCellVisit` does |
| Grids.SweepFromCellVisit | outbreak_gui.py:206-213 | the same as SweepFromCell for a sweep resumed inside the grid: visiting cell (i, j) and going on still leaves each person unchanged or contacted once with its own draw. This lemma does not say when the contact happens |
| Grids.DayCell | outbreak_gui.py:190-213 | after a day each person is their resolution step, possibly followed by one contact. This lemma does not say when the contact happens; `DayCellVisit` does |
| Grids.SweepTo | outbreak_gui.py:204-213 | reference definition of the sweep up to cell (r, c): the grid the loop body at (r, c) reads. Its contract keeps the grid square |
| Grids.SweepToRest | outbreak_gui.py:204-213 | when the sweep reaches (r, c), the cells from (r, c) on in row-major order are not yet touched |
| Grids.SweepFromTo | outbreak_gui.py:204-213 | the whole sweep is the sweep up to (r, c) followed by the sweep from (r, c) |
| Grids.SweepCellVisit | outbreak_gui.py:204-213 | the grid the loop body at (r, c) reads holds final values before (r, c) and untouched values from (r, c) on. The person at (r, c) ends contacted exactly when they are exposed in that grid, so infections caught earlier in the same sweep count |
| Grids.DayCellVisit | outbreak_gui.py:190-243 | after a day each person is their resolution step, followed by a contact exactly when they are exposed in the grid as the sweep reaches them |
| Grids.NoneInfectedNotExposed | outbreak_gui.py:207-242 | where nobody is infected, nobody is exposed, in either neighbourhood and at any indices |
| Grids.QuietSweep | outbreak_gui.py:204-213 | a sweep over a grid where nobody is infected changes nothing |
| Grids.QuietDay | outbreak_gui.py:190-243 | a day on a grid where nobody is infected changes nothing |
| Grids.SweepCascades | outbreak_gui.py:204-213 | on a 3 by 3 grid with only (0, 0) infected, (0, 2) has no infected neighbour when the sweep starts, yet ends the day infected through (0, 1), which was infected earlier in the same sweep |
| Grids.DayInvariants | outbreak_gui.py:190-243 | a day never clears anybody's `was_infected` or `is_immune` and never sets `is_alive` back to true, though an illness that ends clears `is_infected`. It keeps illness clocks within the duration and consistent people consistent |
| Grids.StatsBounded | outbreak_gui.py:47-67 | each of the three totals is at most the number of people |
| Grids.CountRow | outbreak_gui.py:60-66 | reference definition of one row of the `get_stats` loop: the number of people of the row the tally counts. It has no contract of its own; `CountRowBound` and `CountRowMonotone` state its properties |
| Grids.CountGrid | outbreak_gui.py:59-66 | reference definition of the `get_stats` double loop for one counter: the sum of the row counts. It has no contract of its own; `CountGridBound` and `CountGridMonotone` state its properties |
| Grids.CountRowBound | outbreak_gui.py:60-66 | one row's count is at most the length of the row |
| Grids.CountGridBound | outbreak_gui.py:59-66 | a counter over rows of length n is at most the number of rows times n |
| Grids.CountRowMonotone | outbreak_gui.py:60-66 | when every person of a row changes monotonically, no counter of the row decreases |
| Grids.CountGridMonotone | outbreak_gui.py:59-66 | when every person of the grid changes monotonically, no counter decreases |
| Grids.GridStats | outbreak_gui.py:47-67 | reference definition of `get_stats` on a snapshot: the three counters in the code's order. It has no contract of its own; `StatsBounded` and `DayStatsMonotone` state its properties |
| Grids.DayStatsMonotone | outbreak_gui.py:47-67 | none of the three totals decreases from one day to the next |
| Grids.HealthyGrid | outbreak_gui.py:29-36 | the grid `create_people` builds is n by n healthy people |
| Grids.Infect | outbreak_gui.py:43-44 | marking one cell infected changes that cell's `is_infected` and nothing else |
| Grids.SeededNone | outbreak_gui.py:40-44 | seeding no location changes nothing |
| Grids.SeededStep | outbreak_gui.py:40-44 | seeding one more location `c * n + r` infects exactly the cell at row r and column c |
| Grids.SeedingInfectsSample | outbreak_gui.py:38-44 | seeding k distinct locations leaves infected exactly the cells `people[loc % n][loc // n]`, and they are k distinct cells |
| Grids.SeedingEveryone | outbreak_gui.py:38-44 | sampling as many locations as there are people infects everybody |
| Grids.Seeded | outbreak_gui.py:38-44 | reference definition of `initial_infection` on a snapshot: the cell at row r and column c gets `is_infected` set exactly when c * n + r is sampled. Its contract keeps the grid square; `SeededStep` and `SeedingInfectsSample` state its behaviour |
| Grids.SeededJoinsCount | outbreak_gui.py:38-44 | an example: on a 2 by 2 grid seeded at locations 0 and 1, the seeded cell (0, 0) is not ever infected, and after one day with risk 100 it is |
| Populations.ListGet | outbreak_gui.py:152-156 | an index Python accepts returns that person. Any other index returns a fresh person. The result's health is `Lookup` of the snapshot, and nobody is changed |
| Populations.Population.constructor | outbreak_gui.py:12-27 | the sizes are stored, the list of people is empty and the population owns no person yet |
| Populations.Population.CreatePeople | outbreak_gui.py:29-36 | appends `grid_size` rows of `grid_size` new, distinct, healthy people. From an empty population the result is a valid n by n grid of healthy people. Every person it takes into ownership is newly allocated, so callers may go on to change them |
| Populations.Population.AddRow | outbreak_gui.py:36 | appending a row of new distinct persons keeps every person owned and at a single place |
| Populations.Population.NewRow | outbreak_gui.py:32-35 | a row of n new, distinct, healthy people |
| Populations.Population.InitialInfection | outbreak_gui.py:38-44 | fails, changing nothing, exactly when `random.sample` would raise (k negative or above n * n). Otherwise the new grid is the old one seeded with the sample |
| Populations.Population.SeedAll | outbreak_gui.py:40-44 | the loop over the sample seeds every location, in order |
| Populations.Population.InfectAt | outbreak_gui.py:43-44 | the person at `people[i][j]` becomes infected, and nobody else changes |
| Populations.Population.GetStats | outbreak_gui.py:47-67 | the result is the three totals of the current grid, and nothing changes |
| Simulations.Simulation.constructor | outbreak_gui.py:161-170 | stores the number of days to simulate |
| Simulations.Simulation.IncreaseDay | outbreak_gui.py:172-188 | the new grid is `ResolvePass` of the old one |
| Simulations.Simulation.SimulateDay4Neighbours | outbreak_gui.py:190-213 | the new grid is one day, `Day`, of the old one under the 4-neighbour rule |
| Simulations.Simulation.SimulateDay8Neighbours | outbreak_gui.py:215-243 | the new grid is one day of the old one under the 8-neighbour rule |
| Simulations.Simulation.ContactSweep | outbreak_gui.py:204-213 | the contact loop applies the row-major sweep to the grid |
| Simulations.Simulation.ContactRow | outbreak_gui.py:205-213 | one row of the contact loop performs that row of the sweep |
| Simulations.Simulation.ContactAt | outbreak_gui.py:206-213 | the loop body at (i, j) is one visit of the sweep on the grid as it stands |
| Simulations.Simulation.Neighbours | outbreak_gui.py:207-240 | the `neighbors` list is the flags of the 4 or 8 neighbours, in the code's order, read with `list_get`, and nobody is changed |
| Simulations.Simulation.Straight | outbreak_gui.py:208-211 | flags of up, down, left and right, in that order |
| Simulations.Simulation.Diagonal | outbreak_gui.py:237-240 | flags of the four diagonals, in the code's order |
| Driver.ChosenMode | outbreak_gui.py:319-322 | the 4-neighbour day is chosen exactly when the answer is the `int` 4 |
| Driver.AlwaysEight | outbreak_gui.py:319-322 | for the `str` that `input()` returns for `number_of_neighbors`, the 8-neighbour day is chosen |
| Driver.Occurrences | outbreak_gui.py:333 | `list.count` is at most the list's length |
| Driver.OccurrencesPositive | outbreak_gui.py:333 | a value is counted at least once exactly when it is in the list |
| Driver.OccurrencesAppend | outbreak_gui.py:325 | appending a value adds one to its count and leaves all other counts alone |
| Driver.History | outbreak_gui.py:325 | after k days, `combos` has k entries |
| Driver.HistoryEntries | outbreak_gui.py:325 | entry t of `combos` is the statistics at the end of day t + 1 |
| Driver.AfterDays | outbreak_gui.py:317-322 | k days of a square grid give a square grid of the same size |
| Driver.AfterDaysStatsMonotone | outbreak_gui.py:317-325 | the statistics of a later day dominate those of an earlier day |
| Driver.RunInvariants | outbreak_gui.py:312-335 | over a whole run from a freshly seeded population, every illness clock stays within the duration. Every person whose location was not sampled stays consistent, and so is never both immune and dead |
| Driver.HistoryMonotone | outbreak_gui.py:325 | `combos` is ordered: no counter ever goes down along it |
| Driver.LastValueBlock | outbreak_gui.py:333 | in an ordered history the occurrences of the last value are the final entries, and the entry before them differs |
| Driver.SettledIsSteady | outbreak_gui.py:333-334 | when the stop test fires, the last 50 entries are equal and the one before them was different |
| Driver.Settled | outbreak_gui.py:333 | reference definition of the stop test: the statistics just recorded occur 50 times in `combos`. It has no contract of its own; `SettledIsSteady` and `SteadyIsSettled` characterise it |
| Driver.SteadyIsSettled | outbreak_gui.py:333-334 | an ordered history that ends in exactly 50 equal entries meets the stop test, so the test fires exactly when the last 50 days were equal and the day before differed |
| Driver.RecordDay | outbreak_gui.py:325-334 | recording one more day keeps the bookkeeping of the loop: earlier prefixes never stopped, the flag is the stop test, and no value is counted more than 50 times |
| Driver.SimulateDay | outbreak_gui.py:319-325 | one day with the chosen neighbourhood, then the statistics of the new grid |
| Driver.DriverPass | outbreak_gui.py:318-334 | one pass of the loop advances the grid by a day and appends that day's statistics, with the stop flag of the count test |
| Driver.Run | outbreak_gui.py:312-335 | the grid and `combos` are those of the first `days_simulated` days. That number never exceeds the requested days, and is smaller only when the stop test fired on the last day. No earlier day met it, and no value is recorded more than 50 times |
| Driver.Outbreak | outbreak_gui.py:285-335 | the program's chain from its inputs: a new population, `create_people`, `initial_infection`, the virus, the simulation and the loop. It fails exactly where `random.sample` raises. Otherwise `combos` is the history of the seeded healthy grid under the clamped virus, stopping early only at the first day the stop test fires |
| Driver.RunSettlesSteadily | outbreak_gui.py:312-335 | a run that stops early has had the same statistics on each of its last 50 days |
| Graphics.ShadeMatchesLegend | outbreak_gui.py:257-264 | for a consistent person the legend printed at start-up is exact: green alive and never infected, yellow infected, blue recovered, red dead |
| Graphics.DeadBeforeImmune | outbreak_gui.py:257-264 | being dead takes precedence over being immune: such a person is drawn red |
| Graphics.Shade | outbreak_gui.py:257-264 | reference definition of the colour tests of `graphics`, in their order. It has no contract of its own; `ShadeMatchesLegend` and `DeadBeforeImmune` state its behaviour |

## Left out

- The user interface is not modelled: reading the parameters with `input()`, `print`, the tkinter window and canvas, `time.sleep`, and `show_results`. The model takes the values the program reads as parameters.
- `int(math.sqrt(population_size))` and the `int(...)` parsing of the answers are floating-point and string conversions. The model starts from the resulting grid size and integers.
- `get_report` formats percentages with float division and `round`. Floating point is outside the model.
- `graphics` only draws rectangles. The model keeps its colour choice (`Graphics.Shade`), not the geometry (`800 // grid_size`).
- `random.randint` and `random.sample` are not modelled as random. Their results are inputs: per-cell draws (`Draws`, `DayDraws`) and a sample satisfying `IsSample`.
- The unused import `from sklearn import neighbors` has no effect and is not modelled.
- A negative `grid_size` cannot come out of `int(math.sqrt(...))`, so the grid size is a `nat`.
- Populations.Population.InitialInfection: requires a valid square population. The program always calls `create_people` first. Called on an empty population with a positive size, Python would raise `IndexError`, and that error path is not modelled.
- Driver.Run: requires at least `simulation_duration` days of draws, as the random source would supply them.
- Simulations.Simulation.SimulateDay4Neighbours and Simulations.Simulation.SimulateDay8Neighbours: the contract states the day as `Day` under any rule value `exposed` implementing the neighbourhood, not under `Rule(mode)` itself. `Rule(mode)` is such a value (`RuleImplements`).
- Driver.Run: the contract states the run under a rule value implementing `ChosenMode(answer)`, in the same way.
