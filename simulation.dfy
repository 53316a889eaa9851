/** The simulation of days: `increase_day` and the two contact sweeps. */
module Simulations {
  import opened Viruses
  import opened Persons
  import opened Grids
  import opened Populations

  class Simulation {
    const simulationDuration: int

    /** `Simulation.__init__` */
    constructor (simulationDuration: int)
      ensures this.simulationDuration == simulationDuration
    {
      this.simulationDuration := simulationDuration;
    }

    /** `increase_day`: every infected person whose illness has lasted less
        than the virus's duration counts one more day; one whose illness has
        lasted exactly the duration ends it, with the cell's draw. */
    method IncreaseDay(virus: Virus, population: Population, d: Draws)
      requires population.Valid() && AreDraws(d, population.gridSize)
      modifies population.Repr
      ensures population.Snapshot() == ResolvePass(old(population.Snapshot()), virus, d)
    {
      ghost var g0: Grid := population.Snapshot();
      var n := population.gridSize;
      var people: seq<seq<Person>> := population.people;
      for i := 0 to |people|
        invariant forall r, c :: 0 <= r < n && 0 <= c < n ==>
          people[r][c].State() == if r < i then AfterDay(g0[r][c], virus, d[r][c]) else g0[r][c]
      {
        var row: seq<Person> := people[i];
        for j := 0 to |row|
          invariant forall r, c :: 0 <= r < n && 0 <= c < n ==>
            people[r][c].State() == if r < i || (r == i && c < j) then AfterDay(g0[r][c], virus, d[r][c]) else g0[r][c]
        {
          var person: Person := row[j];
          if person.isInfected && person.daysInfected < virus.duration {
            person.daysInfected := person.daysInfected + 1;
          } else if person.isInfected && person.daysInfected == virus.duration {
            person.EndOfSickness(virus, d[i][j]);
          }
        }
      }
      GridEqual(population.Snapshot(), ResolvePass(g0, virus, d), n);
    }

    /** `simulate_day_4_neighbors`: the resolution pass, then the contact
        sweep over up, down, left and right. */
    method SimulateDay4Neighbours(virus: Virus, population: Population, ghost exposed: Exposure, dd: DayDraws)
      requires population.Valid() && AreDayDraws(dd, population.gridSize) && Implements(exposed, Four)
      modifies population.Repr
      ensures population.Snapshot() == Day(old(population.Snapshot()), virus, exposed, dd)
    {
      IncreaseDay(virus, population, dd.resolve);
      ContactSweep(virus, population, Four, exposed, dd.contact);
    }

    /** `simulate_day_8_neighbors`: as `simulate_day_4_neighbors`, with the
        diagonals as well. */
    method SimulateDay8Neighbours(virus: Virus, population: Population, ghost exposed: Exposure, dd: DayDraws)
      requires population.Valid() && AreDayDraws(dd, population.gridSize) && Implements(exposed, Eight)
      modifies population.Repr
      ensures population.Snapshot() == Day(old(population.Snapshot()), virus, exposed, dd)
    {
      IncreaseDay(virus, population, dd.resolve);
      ContactSweep(virus, population, Eight, exposed, dd.contact);
    }

    /** The contact loop shared by the two `simulate_day` methods: row by row,
        each person with an infected neighbour in the grid as it stands is
        exposed to the virus, with the cell's draw. `exposed` is the
        neighbour rule of `mode`, carried as a value for the proof. */
    method ContactSweep(virus: Virus, population: Population, mode: Mode, ghost exposed: Exposure, d: Draws)
      requires population.Valid() && AreDraws(d, population.gridSize) && Implements(exposed, mode)
      modifies population.Repr
      ensures population.Snapshot() == SweepFrom(old(population.Snapshot()), virus, exposed, d, 0, 0)
    {
      ghost var goal := SweepFrom(population.Snapshot(), virus, exposed, d, 0, 0);
      for i := 0 to population.gridSize
        invariant SweepFrom(population.Snapshot(), virus, exposed, d, i, 0) == goal
      {
        ContactRow(virus, population, mode, exposed, d, i);
      }
    }

    /** One pass of the outer contact loop: row i, left to right. */
    method ContactRow(virus: Virus, population: Population, mode: Mode, ghost exposed: Exposure, d: Draws, i: nat)
      requires population.Valid() && AreDraws(d, population.gridSize) && Implements(exposed, mode)
      requires i < population.gridSize
      modifies population.Repr
      ensures SweepFrom(population.Snapshot(), virus, exposed, d, i + 1, 0) ==
        SweepFrom(old(population.Snapshot()), virus, exposed, d, i, 0)
    {
      ghost var goal := SweepFrom(population.Snapshot(), virus, exposed, d, i, 0);
      for j := 0 to population.gridSize
        invariant SweepFrom(population.Snapshot(), virus, exposed, d, i, j) == goal
      {
        ghost var before: Grid := population.Snapshot();
        ContactAt(virus, population, mode, exposed, d, i, j);
        assert SweepFrom(before, virus, exposed, d, i, j) ==
          SweepFrom(population.Snapshot(), virus, exposed, d, i, j + 1);
      }
    }

    /** The body of the contact loop at the person `people[i][j]`. */
    method ContactAt(virus: Virus, population: Population, mode: Mode, ghost exposed: Exposure, d: Draws, i: nat, j: nat)
      requires population.Valid() && AreDraws(d, population.gridSize) && Implements(exposed, mode)
      requires i < population.gridSize && j < population.gridSize
      modifies population.people[i][j]
      ensures population.Snapshot() == Visit(old(population.Snapshot()), virus, exposed, d, i, j)
    {
      ghost var g: Grid := population.Snapshot();
      var person: Person := population.people[i][j];
      var neighbours := Neighbours(population.people, mode, i, j);
      assert exposed(g, i, j) == Exposed(g, i, j, mode) == (true in neighbours);
      if true in neighbours {
        person.VirusContact(virus, d[i][j]);
      }
      var h := Visit(g, virus, exposed, d, i, j);
      VisitCells(g, virus, exposed, d, i, j);
      forall r, c | 0 <= r < population.gridSize && 0 <= c < population.gridSize
        ensures States(population.people)[r][c] == h[r][c]
      {
      }
      GridEqual(population.Snapshot(), h, population.gridSize);
    }

    /** The `neighbors` list of the contact loop, built with `list_get`. */
    method Neighbours(people: seq<seq<Person>>, mode: Mode, i: int, j: int) returns (neighbours: seq<bool>)
      ensures neighbours == NeighbourFlags(States(people), i, j, mode)
      ensures States(people) == old(States(people))
    {
      neighbours := Straight(people, i, j);
      if mode == Eight {
        var diagonal := Diagonal(people, i, j);
        neighbours := neighbours + diagonal;
      }
    }

    /** The first four entries of `neighbors`: up, down, left and right. */
    method Straight(people: seq<seq<Person>>, i: int, j: int) returns (flags: seq<bool>)
      ensures flags == [Lookup(States(people), i - 1, j).isInfected, Lookup(States(people), i + 1, j).isInfected,
                        Lookup(States(people), i, j - 1).isInfected, Lookup(States(people), i, j + 1).isInfected]
      ensures States(people) == old(States(people))
    {
      var up := ListGet(people, i - 1, j);
      var down := ListGet(people, i + 1, j);
      var left := ListGet(people, i, j - 1);
      var right := ListGet(people, i, j + 1);
      flags := [up.isInfected, down.isInfected, left.isInfected, right.isInfected];
    }

    /** The diagonal entries of `neighbors` in the 8-neighbour sweep. */
    method Diagonal(people: seq<seq<Person>>, i: int, j: int) returns (flags: seq<bool>)
      ensures flags == [Lookup(States(people), i - 1, j - 1).isInfected, Lookup(States(people), i + 1, j - 1).isInfected,
                        Lookup(States(people), i - 1, j + 1).isInfected, Lookup(States(people), i + 1, j + 1).isInfected]
      ensures States(people) == old(States(people))
    {
      var upLeft := ListGet(people, i - 1, j - 1);
      var downLeft := ListGet(people, i + 1, j - 1);
      var upRight := ListGet(people, i - 1, j + 1);
      var downRight := ListGet(people, i + 1, j + 1);
      flags := [upLeft.isInfected, downLeft.isInfected, upRight.isInfected, downRight.isInfected];
    }
  }
}
