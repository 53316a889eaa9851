/** The population: a square 2d list of `Person` objects updated in place,
    and `list_get`. */
module Populations {
  import opened Viruses
  import opened Persons
  import opened Grids

  /** Every person held by a 2d list. */
  ghost function Objects(g: seq<seq<Person>>): set<Person>
  {
    set row, p | row in g && p in row :: p
  }

  function RowStates(row: seq<Person>): (r: seq<Health>)
    reads row
    ensures |r| == |row| && forall j :: 0 <= j < |row| ==> r[j] == row[j].State()
  {
    seq(|row|, j requires 0 <= j < |row| reads row => row[j].State())
  }

  /** The health of every person of a 2d list, as a value. */
  ghost function States(g: seq<seq<Person>>): (r: Grid)
    reads Objects(g)
    ensures |r| == |g| && forall i :: 0 <= i < |g| ==> |r[i]| == |g[i]|
    ensures forall i, j :: 0 <= i < |g| && 0 <= j < |g[i]| ==> r[i][j] == g[i][j].State()
  {
    seq(|g|, i requires 0 <= i < |g| reads Objects(g) =>
      RowInObjects(g, i);
      RowStates(g[i]))
  }

  lemma RowInObjects(g: seq<seq<Person>>, i: nat)
    requires i < |g|
    ensures forall p :: p in g[i] ==> p in Objects(g)
  {
    assert g[i] in g;
  }

  lemma ObjectsWithin(g: seq<seq<Person>>, s: set<Person>)
    requires forall i, j :: 0 <= i < |g| && 0 <= j < |g[i]| ==> g[i][j] in s
    ensures Objects(g) <= s
  {
  }

  /** `list_get`: `people_list[row][column]`, or a fresh healthy person where
      Python raises `IndexError`. */
  method ListGet(peopleList: seq<seq<Person>>, row: int, column: int) returns (p: Person)
    ensures PyInBounds(peopleList, row, column) ==> p == PyAt(peopleList, row, column)
    ensures !PyInBounds(peopleList, row, column) ==> fresh(p)
    ensures p.State() == Lookup(States(peopleList), row, column)
    ensures States(peopleList) == old(States(peopleList))
  {
    if PyInBounds(peopleList, row, column) {
      p := PyAt(peopleList, row, column);
    } else {
      p := new Person();
    }
  }

  /** Where each person of a new row `i` stands. */
  ghost function RowIndex(row: seq<Person>, i: int): (m: map<Person, (int, int)>)
    requires forall k, k' :: 0 <= k < k' < |row| ==> row[k] != row[k']
    ensures forall k :: 0 <= k < |row| ==> row[k] in m && m[row[k]] == (i, k)
    ensures forall p :: p in m ==> p in row
  {
    map k | 0 <= k < |row| :: row[k] := (i, k)
  }

  class Population {
    const gridSize: nat
    const infected: int
    var people: seq<seq<Person>>
    /** The persons the population owns, and where each of them stands. */
    ghost var Repr: set<Person>
    ghost var Index: map<Person, (int, int)>

    /** Every person of `people` is owned and stands where `Index` says, so
        that no person appears at two places. */
    ghost predicate Owned()
      reads this
    {
      forall i, j :: 0 <= i < |people| && 0 <= j < |people[i]| ==>
        people[i][j] in Repr && people[i][j] in Index && Index[people[i][j]] == (i, j)
    }

    /** The class invariant: `people` is a square of distinct persons. No
        person stands at two places, since `Index` gives each person a
        single place; so updating one person changes one cell only. */
    ghost predicate Valid()
      reads this
    {
      IsSquare(people, gridSize) && Owned()
    }

    /** The population's health, as a value. */
    ghost function Snapshot(): (g: Grid)
      reads this, Repr
      requires Valid()
      ensures IsSquare(g, gridSize)
      ensures forall i, j :: 0 <= i < gridSize && 0 <= j < gridSize ==> g[i][j] == people[i][j].State()
    {
      ObjectsWithin(people, Repr);
      States(people)
    }

    /** `Population.__init__`: no people yet. */
    constructor (gridSize: nat, infected: int)
      ensures this.gridSize == gridSize && this.infected == infected && people == []
      ensures Repr == {}
    {
      this.gridSize := gridSize;
      this.infected := infected;
      people := [];
      Repr, Index := {}, map[];
    }

    /** `create_people`: appends `gridSize` rows of `gridSize` new people. */
    method CreatePeople()
      requires Owned()
      modifies this
      ensures Owned()
      ensures |people| == |old(people)| + gridSize && people[..|old(people)|] == old(people)
      ensures forall i :: |old(people)| <= i < |people| ==> |people[i]| == gridSize
      ensures forall i, j :: |old(people)| <= i < |people| && 0 <= j < gridSize ==>
        fresh(people[i][j]) && people[i][j].State() == Healthy
      ensures old(people) == [] ==> Valid() && Snapshot() == HealthyGrid(gridSize)
      ensures fresh(Repr - old(Repr))
    {
      var i := 0;
      while i < gridSize
        invariant 0 <= i <= gridSize
        invariant |people| == |old(people)| + i && people[..|old(people)|] == old(people)
        invariant Owned()
        invariant fresh(Repr - old(Repr))
        invariant forall r :: |old(people)| <= r < |people| ==> |people[r]| == gridSize
        invariant forall r, j :: |old(people)| <= r < |people| && 0 <= j < gridSize ==>
          fresh(people[r][j]) && people[r][j].State() == Healthy
      {
        var row := NewRow(gridSize);
        AddRow(row);
        i := i + 1;
      }
      if old(people) == [] {
        GridEqual(Snapshot(), HealthyGrid(gridSize), gridSize);
      }
    }

    /** One pass of the `create_people` loop: appends a row of persons the
        population did not own before. */
    method AddRow(row: seq<Person>)
      requires Owned()
      requires forall k :: 0 <= k < |row| ==> row[k] !in Repr && row[k] !in Index
      requires forall k, k' :: 0 <= k < k' < |row| ==> row[k] != row[k']
      modifies this
      ensures Owned() && people == old(people) + [row]
      ensures Repr == old(Repr) + set p | p in row
    {
      ghost var m := RowIndex(row, |people|);
      ghost var oldPeople := people;
      assert forall i, j :: 0 <= i < |people| && 0 <= j < |people[i]| ==> people[i][j] !in m;
      Index := Index + m;
      Repr := Repr + set p | p in row;
      people := people + [row];
      assert forall i :: 0 <= i < |oldPeople| ==> people[i] == oldPeople[i];
      assert people[|oldPeople|] == row;
    }

    /** `initial_infection`: `random.sample(range(gridSize ** 2), infected)`
        is passed in as `sample`. Python raises `ValueError` when `infected` is
        negative or larger than the population; then nobody is infected and
        the result is false. Each sampled location `loc` infects
        `people[loc % gridSize][loc // gridSize]`. */
    method InitialInfection(sample: seq<int>) returns (ok: bool)
      requires Valid()
      requires 0 <= infected <= gridSize * gridSize ==> IsSample(sample, gridSize * gridSize, infected)
      modifies Repr
      ensures ok <==> 0 <= infected <= gridSize * gridSize
      ensures ok ==> Snapshot() == Seeded(old(Snapshot()), sample)
      ensures !ok ==> Snapshot() == old(Snapshot())
    {
      if !(0 <= infected <= gridSize * gridSize) {
        return false;
      }
      SeedAll(sample);
      return true;
    }

    /** The loop of `initial_infection` over the sampled locations. */
    method SeedAll(sample: seq<int>)
      requires Valid()
      requires forall a :: 0 <= a < |sample| ==> 0 <= sample[a] < gridSize * gridSize
      modifies Repr
      ensures Snapshot() == Seeded(old(Snapshot()), sample)
    {
      ghost var g0: Grid := Snapshot();
      var n := gridSize;
      SeededNone(g0);
      assert sample[..0] == [];
      for k := 0 to |sample|
        invariant Snapshot() == Seeded(g0, sample[..k])
      {
        var gridLocation := sample[k];
        CellOfLocation(gridLocation, n);
        var column := gridLocation % n;
        var row := gridLocation / n;
        assert gridLocation == row * |g0| + column;
        InfectAt(column, row);
        SeededStep(g0, sample[..k], gridLocation, column, row);
        PrefixStep(sample, k);
      }
      assert sample[..|sample|] == sample;
    }

    /** `target_person.is_infected = True` for the person `people[i][j]`. */
    method InfectAt(i: nat, j: nat)
      requires Valid() && i < gridSize && j < gridSize
      modifies people[i][j]
      ensures Snapshot() == Infect(old(Snapshot()), i, j)
    {
      ghost var g0 := Snapshot();
      var targetPerson := people[i][j];
      targetPerson.isInfected := true;
      var g := Infect(g0, i, j);
      forall r, c | 0 <= r < gridSize && 0 <= c < gridSize
        ensures States(people)[r][c] == g[r][c]
      {
      }
      GridEqual(Snapshot(), g, gridSize);
    }

    /** `get_stats`: counts, over every person, those ever infected, the
        immune and the dead. */
    method GetStats() returns (s: Stats)
      requires Valid()
      ensures Snapshot() == old(Snapshot())
      ensures s == GridStats(Snapshot())
    {
      ghost var g: Grid := Snapshot();
      var totalInfected, totalImmune, totalDead := 0, 0, 0;
      for i := 0 to |people|
        invariant totalInfected == CountGrid(g[..i], EverInfected)
        invariant totalImmune == CountGrid(g[..i], Immune)
        invariant totalDead == CountGrid(g[..i], Dead)
      {
        var group := people[i];
        for j := 0 to |group|
          invariant totalInfected == CountGrid(g[..i], EverInfected) + CountRow(g[i][..j], EverInfected)
          invariant totalImmune == CountGrid(g[..i], Immune) + CountRow(g[i][..j], Immune)
          invariant totalDead == CountGrid(g[..i], Dead) + CountRow(g[i][..j], Dead)
        {
          var person := group[j];
          assert g[i][..j + 1][..j] == g[i][..j];
          if person.wasInfected {
            totalInfected := totalInfected + 1;
          }
          if person.isImmune {
            totalImmune := totalImmune + 1;
          }
          if !person.isAlive {
            totalDead := totalDead + 1;
          }
        }
        assert g[..i + 1][..i] == g[..i];
        assert g[i][..|group|] == g[i];
      }
      assert g[..|people|] == g;
      s := Stats(totalInfected, totalImmune, totalDead);
    }

    /** The body of `create_people`'s outer loop: a row of n new people. */
    static method NewRow(n: nat) returns (row: seq<Person>)
      ensures |row| == n
      ensures forall j :: 0 <= j < n ==> fresh(row[j]) && row[j].State() == Healthy
      ensures forall j, j' :: 0 <= j < j' < n ==> row[j] != row[j']
    {
      row := [];
      var j := 0;
      while j < n
        invariant 0 <= j <= n && |row| == j
        invariant forall k :: 0 <= k < j ==> fresh(row[k]) && row[k].State() == Healthy
        invariant forall k, k' :: 0 <= k < k' < j ==> row[k] != row[k']
      {
        var person := new Person();
        row := row + [person];
        j := j + 1;
      }
    }
  }

}
