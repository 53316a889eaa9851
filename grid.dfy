/** The grid of people as a value: the specification of the passes of one
    simulated day, of `list_get`, of seeding and of the statistics. */
module Grids {
  import opened Viruses
  import opened Persons

  /** A snapshot of the population, indexed `[row][column]`. */
  type Grid = seq<seq<Health>>

  /** One `randint(1, 100)` per cell, for one pass over the grid. */
  type Draws = seq<seq<int>>

  predicate IsSquare<T>(g: seq<seq<T>>, n: nat)
  {
    |g| == n && forall i :: 0 <= i < n ==> |g[i]| == n
  }

  predicate AreDraws(d: Draws, n: nat)
  {
    IsSquare(d, n) && forall i, j :: 0 <= i < n && 0 <= j < n ==> IsDraw(d[i][j])
  }

  /** The draws consumed by one day: one grid for the resolution pass and one
      for the contact pass. */
  datatype DayDraws = DayDraws(resolve: Draws, contact: Draws)

  predicate AreDayDraws(dd: DayDraws, n: nat)
  {
    AreDraws(dd.resolve, n) && AreDraws(dd.contact, n)
  }

  // ---------------------------------------------------------------------------
  // list_get

  /** Python accepts an index from -len to len - 1; negative ones count from the end. */
  predicate PyIndexOk(k: int, len: nat)
  {
    -(len as int) <= k < len
  }

  function PyIndex(k: int, len: nat): (r: nat)
    requires PyIndexOk(k, len)
    ensures r < len
    ensures 0 <= k ==> r == k
    ensures k < 0 ==> r == len + k
  {
    if k < 0 then k + len else k
  }

  /** `people_list[row][column]` raises no `IndexError`. */
  predicate PyInBounds<T>(g: seq<seq<T>>, row: int, column: int)
  {
    PyIndexOk(row, |g|) && PyIndexOk(column, |g[PyIndex(row, |g|)]|)
  }

  /** The element `people_list[row][column]` names. */
  function PyAt<T>(g: seq<seq<T>>, row: int, column: int): T
    requires PyInBounds(g, row, column)
  {
    g[PyIndex(row, |g|)][PyIndex(column, |g[PyIndex(row, |g|)]|)]
  }

  /** `list_get` on a snapshot: the indexed person, or a healthy person where
      Python would raise `IndexError`. Total: it never fails. For the indices
      the sweep uses, -1 wraps to the last row or column and |g| gives the
      healthy sentinel. */
  function Lookup(g: Grid, row: int, column: int): Health
  {
    if PyInBounds(g, row, column) then PyAt(g, row, column) else Healthy
  }

  /** What `list_get` returns for the indices the sweep passes, from -1 to n:
      -1 wraps around to the last row or column, n yields the healthy sentinel. */
  lemma LookupNeverFails(g: Grid, n: nat, row: int, column: int)
    requires IsSquare(g, n) && 0 < n && -1 <= row <= n && -1 <= column <= n
    ensures row < n && column < n ==>
      Lookup(g, row, column) == g[if row == -1 then n - 1 else row][if column == -1 then n - 1 else column]
    ensures row == n || column == n ==> Lookup(g, row, column) == Healthy
    ensures Lookup(g, row, column).isInfected ==> row < n && column < n
  {
  }

  // ---------------------------------------------------------------------------
  // Neighbourhoods

  /** Which neighbours the contact pass looks at: up, down, left, right, and
      for Eight also the four diagonals. */
  datatype Mode = Four | Eight

  /** The `neighbors` list of the sweep at cell (i, j), in the source's order. */
  function NeighbourFlags(g: Grid, i: int, j: int, mode: Mode): seq<bool>
  {
    [Lookup(g, i - 1, j).isInfected, Lookup(g, i + 1, j).isInfected,
     Lookup(g, i, j - 1).isInfected, Lookup(g, i, j + 1).isInfected]
    + if mode == Eight then
        [Lookup(g, i - 1, j - 1).isInfected, Lookup(g, i + 1, j - 1).isInfected,
         Lookup(g, i - 1, j + 1).isInfected, Lookup(g, i + 1, j + 1).isInfected]
      else []
  }

  /** `any(neighbors)`. */
  predicate Exposed(g: Grid, i: int, j: int, mode: Mode)
  {
    true in NeighbourFlags(g, i, j, mode)
  }

  /** A neighbour rule: whether the person at (i, j) is in contact with an
      infected neighbour. The sweep is stated for any rule, so that reasoning
      about its order does not depend on the neighbourhood. */
  type Exposure = (Grid, int, int) -> bool

  function Rule(mode: Mode): Exposure
  {
    (g: Grid, i: int, j: int) => Exposed(g, i, j, mode)
  }

  /** `exposed` agrees with the neighbour rule of `mode` on every grid and
      cell. The trigger keeps the rule folded until a cell's exposure is
      asked for by name. */
  ghost predicate Implements(exposed: Exposure, mode: Mode)
  {
    forall g, i, j {:trigger Exposed(g, i, j, mode)} :: exposed(g, i, j) == Exposed(g, i, j, mode)
  }

  /** The concrete rule of a mode implements that mode. */
  lemma RuleImplements(mode: Mode)
    ensures Implements(Rule(mode), mode)
  {
  }

  /** The bottom-right corner: below and to the right lie only healthy
      stand-ins, so in the 4-neighbourhood it sees the cells above and to the
      left, and in the 8-neighbourhood also the cell diagonally up-left. */
  lemma CornerBottomRight(g: Grid, n: nat)
    requires IsSquare(g, n) && n >= 2
    ensures Exposed(g, n - 1, n - 1, Four) <==> g[n - 2][n - 1].isInfected || g[n - 1][n - 2].isInfected
    ensures Exposed(g, n - 1, n - 1, Eight) <==>
      g[n - 2][n - 1].isInfected || g[n - 1][n - 2].isInfected || g[n - 2][n - 2].isInfected
  {
    assert NeighbourFlags(g, n - 1, n - 1, Four) ==
      [g[n - 2][n - 1].isInfected, false, g[n - 1][n - 2].isInfected, false];
    assert NeighbourFlags(g, n - 1, n - 1, Eight) ==
      [g[n - 2][n - 1].isInfected, false, g[n - 1][n - 2].isInfected, false,
       g[n - 2][n - 2].isInfected, false, false, false];
  }

  /** The top-left corner: the row above and the column to the left wrap to the
      last row and column, so it sees four people in the 4-neighbourhood and
      eight in the 8-neighbourhood, five of them through the wrap. */
  lemma CornerTopLeft(g: Grid, n: nat)
    requires IsSquare(g, n) && n >= 2
    ensures Exposed(g, 0, 0, Four) <==>
      g[n - 1][0].isInfected || g[1][0].isInfected || g[0][n - 1].isInfected || g[0][1].isInfected
    ensures Exposed(g, 0, 0, Eight) <==>
      g[n - 1][0].isInfected || g[1][0].isInfected || g[0][n - 1].isInfected || g[0][1].isInfected
      || g[n - 1][n - 1].isInfected || g[1][n - 1].isInfected || g[n - 1][1].isInfected || g[1][1].isInfected
  {
    assert NeighbourFlags(g, 0, 0, Four) ==
      [g[n - 1][0].isInfected, g[1][0].isInfected, g[0][n - 1].isInfected, g[0][1].isInfected];
    assert NeighbourFlags(g, 0, 0, Eight) ==
      [g[n - 1][0].isInfected, g[1][0].isInfected, g[0][n - 1].isInfected, g[0][1].isInfected,
       g[n - 1][n - 1].isInfected, g[1][n - 1].isInfected, g[n - 1][1].isInfected, g[1][1].isInfected];
  }

  /** The top-right corner: the row above wraps to the last row, the column to
      the right falls off the grid. */
  lemma CornerTopRight(g: Grid, n: nat)
    requires IsSquare(g, n) && n >= 2
    ensures Exposed(g, 0, n - 1, Four) <==> g[n - 1][n - 1].isInfected || g[1][n - 1].isInfected || g[0][n - 2].isInfected
    ensures Exposed(g, 0, n - 1, Eight) <==>
      g[n - 1][n - 1].isInfected || g[1][n - 1].isInfected || g[0][n - 2].isInfected || g[n - 1][n - 2].isInfected
      || g[1][n - 2].isInfected
  {
    assert NeighbourFlags(g, 0, n - 1, Four) ==
      [g[n - 1][n - 1].isInfected, g[1][n - 1].isInfected, g[0][n - 2].isInfected, false];
    assert NeighbourFlags(g, 0, n - 1, Eight) ==
      [g[n - 1][n - 1].isInfected, g[1][n - 1].isInfected, g[0][n - 2].isInfected, false,
       g[n - 1][n - 2].isInfected, g[1][n - 2].isInfected, false, false];
  }

  /** The bottom-left corner: the row below falls off the grid, the column to
      the left wraps to the last column. */
  lemma CornerBottomLeft(g: Grid, n: nat)
    requires IsSquare(g, n) && n >= 2
    ensures Exposed(g, n - 1, 0, Four) <==> g[n - 2][0].isInfected || g[n - 1][n - 1].isInfected || g[n - 1][1].isInfected
    ensures Exposed(g, n - 1, 0, Eight) <==>
      g[n - 2][0].isInfected || g[n - 1][n - 1].isInfected || g[n - 1][1].isInfected || g[n - 2][n - 1].isInfected
      || g[n - 2][1].isInfected
  {
    assert NeighbourFlags(g, n - 1, 0, Four) ==
      [g[n - 2][0].isInfected, false, g[n - 1][n - 1].isInfected, g[n - 1][1].isInfected];
    assert NeighbourFlags(g, n - 1, 0, Eight) ==
      [g[n - 2][0].isInfected, false, g[n - 1][n - 1].isInfected, g[n - 1][1].isInfected,
       g[n - 2][n - 1].isInfected, false, g[n - 2][1].isInfected, false];
  }

  /** On a 1 by 1 grid the only person is their own upper and left
      neighbour through the wrap, in both neighbourhoods: an infected lone
      person is exposed to themself. */
  lemma LoneNeighbour(g: Grid, mode: Mode)
    requires IsSquare(g, 1)
    ensures Exposed(g, 0, 0, mode) <==> g[0][0].isInfected
  {
    assert Lookup(g, -1, 0) == g[0][0] && Lookup(g, 0, -1) == g[0][0] && Lookup(g, -1, -1) == g[0][0];
    assert Lookup(g, 1, 0) == Healthy && Lookup(g, 0, 1) == Healthy;
    assert Lookup(g, 1, -1) == Healthy && Lookup(g, -1, 1) == Healthy && Lookup(g, 1, 1) == Healthy;
    assert NeighbourFlags(g, 0, 0, mode)[0] == g[0][0].isInfected;
  }

  // ---------------------------------------------------------------------------
  // The two passes of a day

  /** `increase_day`: every person advances independently of the others. */
  function ResolvePass(g: Grid, v: Virus, d: Draws): (r: Grid)
    requires IsSquare(g, |g|) && IsSquare(d, |g|)
    ensures IsSquare(r, |g|)
    ensures forall i, j :: 0 <= i < |g| && 0 <= j < |g| ==> r[i][j] == AfterDay(g[i][j], v, d[i][j])
  {
    seq(|g|, i requires 0 <= i < |g| => seq(|g|, j requires 0 <= j < |g| => AfterDay(g[i][j], v, d[i][j])))
  }

  /** The body of the contact sweep at cell (i, j): contact if any neighbour of
      the current grid is infected. */
  function Visit(g: Grid, v: Virus, exposed: Exposure, d: Draws, i: nat, j: nat): (r: Grid)
    requires i < |g| && j < |g[i]| && i < |d| && j < |d[i]|
    ensures |r| == |g| && forall k :: 0 <= k < |g| ==> |r[k]| == |g[k]|
  {
    if exposed(g, i, j) then g[i := g[i][j := AfterContact(g[i][j], v, d[i][j])]] else g
  }

  /** A visit changes the visited cell only, by one contact if it is exposed. */
  lemma VisitCells(g: Grid, v: Virus, exposed: Exposure, d: Draws, i: nat, j: nat)
    requires i < |g| && j < |g[i]| && i < |d| && j < |d[i]|
    ensures var r := Visit(g, v, exposed, d, i, j);
      && (forall a, b :: 0 <= a < |g| && 0 <= b < |g[a]| && (a, b) != (i, j) ==> r[a][b] == g[a][b])
      && r[i][j] == if exposed(g, i, j) then AfterContact(g[i][j], v, d[i][j]) else g[i][j]
  {
  }

  /** The rest of the row-major sweep from cell (i, j) on, each cell seeing the
      grid as already changed by the cells before it. */
  function SweepFrom(g: Grid, v: Virus, exposed: Exposure, d: Draws, i: nat, j: nat): (r: Grid)
    requires IsSquare(g, |g|) && IsSquare(d, |g|) && i <= |g| && j <= |g|
    ensures IsSquare(r, |g|)
    decreases |g| - i, |g| - j
  {
    if i == |g| then g
    else if j == |g| then SweepFrom(g, v, exposed, d, i + 1, 0)
    else SweepFrom(Visit(g, v, exposed, d, i, j), v, exposed, d, i, j + 1)
  }

  /** One simulated day: the resolution pass, then the contact sweep of
      `simulate_day_4_neighbors` / `simulate_day_8_neighbors` under the
      neighbour rule `exposed`. */
  function Day(g: Grid, v: Virus, exposed: Exposure, dd: DayDraws): (r: Grid)
    requires IsSquare(g, |g|) && IsSquare(dd.resolve, |g|) && IsSquare(dd.contact, |g|)
    ensures IsSquare(r, |g|)
  {
    SweepFrom(ResolvePass(g, v, dd.resolve), v, exposed, dd.contact, 0, 0)
  }

  /** The sweep from (i, j) leaves the cells before (i, j) in row-major order alone. */
  lemma {:induction false} SweepFromKeepsDone(g: Grid, v: Virus, exposed: Exposure, d: Draws, i: nat, j: nat, r: nat, c: nat)
    requires IsSquare(g, |g|) && IsSquare(d, |g|) && i <= |g| && j <= |g| && r < |g| && c < |g|
    requires r < i || (r == i && c < j)
    ensures SweepFrom(g, v, exposed, d, i, j)[r][c] == g[r][c]
    decreases |g| - i, |g| - j
  {
    if i == |g| {
      assert SweepFrom(g, v, exposed, d, i, j) == g;
    } else if j == |g| {
      assert SweepFrom(g, v, exposed, d, i, j) == SweepFrom(g, v, exposed, d, i + 1, 0);
      SweepFromKeepsDone(g, v, exposed, d, i + 1, 0, r, c);
    } else {
      var g' := Visit(g, v, exposed, d, i, j);
      assert SweepFrom(g, v, exposed, d, i, j) == SweepFrom(g', v, exposed, d, i, j + 1);
      SweepFromKeepsDone(g', v, exposed, d, i, j + 1, r, c);
      VisitCells(g, v, exposed, d, i, j);
    }
  }

  /** The sweep visits every cell once: each cell ends either unchanged or
      contacted once, with its own draw. */
  lemma {:induction false} SweepFromCell(g: Grid, v: Virus, exposed: Exposure, d: Draws, i: nat, j: nat, r: nat, c: nat)
    requires IsSquare(g, |g|) && IsSquare(d, |g|) && i <= |g| && j <= |g| && r < |g| && c < |g|
    ensures var s := SweepFrom(g, v, exposed, d, i, j);
      s[r][c] == g[r][c] || s[r][c] == AfterContact(g[r][c], v, d[r][c])
    decreases |g| - i, |g| - j, 1
  {
    if i == |g| {
      assert SweepFrom(g, v, exposed, d, i, j) == g;
    } else if j == |g| {
      assert SweepFrom(g, v, exposed, d, i, j) == SweepFrom(g, v, exposed, d, i + 1, 0);
      SweepFromCell(g, v, exposed, d, i + 1, 0, r, c);
    } else {
      SweepFromCellVisit(g, v, exposed, d, i, j, r, c);
    }
  }

  /** The step of SweepFromCell at a cell (i, j) inside the grid. */
  lemma {:induction false} SweepFromCellVisit(g: Grid, v: Virus, exposed: Exposure, d: Draws, i: nat, j: nat, r: nat, c: nat)
    requires IsSquare(g, |g|) && IsSquare(d, |g|) && i < |g| && j < |g| && r < |g| && c < |g|
    ensures var s := SweepFrom(g, v, exposed, d, i, j);
      s[r][c] == g[r][c] || s[r][c] == AfterContact(g[r][c], v, d[r][c])
    decreases |g| - i, |g| - j, 0
  {
    var g' := Visit(g, v, exposed, d, i, j);
    assert SweepFrom(g, v, exposed, d, i, j) == SweepFrom(g', v, exposed, d, i, j + 1);
    VisitCells(g, v, exposed, d, i, j);
    if r == i && c == j {
      SweepFromKeepsDone(g', v, exposed, d, i, j + 1, r, c);
    } else {
      SweepFromCell(g', v, exposed, d, i, j + 1, r, c);
    }
  }

  /** After a whole day each person has gone through its resolution step and
      then at most one contact. */
  lemma DayCell(g: Grid, v: Virus, exposed: Exposure, dd: DayDraws, r: nat, c: nat)
    requires IsSquare(g, |g|) && IsSquare(dd.resolve, |g|) && IsSquare(dd.contact, |g|)
    requires r < |g| && c < |g|
    ensures IsSquare(Day(g, v, exposed, dd), |g|)
    ensures var a := AfterDay(g[r][c], v, dd.resolve[r][c]);
      Day(g, v, exposed, dd)[r][c] == a || Day(g, v, exposed, dd)[r][c] == AfterContact(a, v, dd.contact[r][c])
  {
    SweepFromCell(ResolvePass(g, v, dd.resolve), v, exposed, dd.contact, 0, 0, r, c);
  }

  /** The sweep up to cell (r, c): every cell before (r, c) in row-major
      order has been visited, each seeing the grid as the visits before it
      left it. This is the grid the loop body at (r, c) reads. */
  function SweepTo(g: Grid, v: Virus, exposed: Exposure, d: Draws, r: nat, c: nat): (s: Grid)
    requires IsSquare(g, |g|) && IsSquare(d, |g|) && r < |g| && c < |g|
    ensures IsSquare(s, |g|)
    decreases r, c
  {
    if c > 0 then Visit(SweepTo(g, v, exposed, d, r, c - 1), v, exposed, d, r, c - 1)
    else if r > 0 then Visit(SweepTo(g, v, exposed, d, r - 1, |g| - 1), v, exposed, d, r - 1, |g| - 1)
    else g
  }

  /** The cells from (r, c) on are not yet touched when the sweep reaches (r, c). */
  lemma {:induction false} SweepToRest(g: Grid, v: Virus, exposed: Exposure, d: Draws, r: nat, c: nat, a: nat, b: nat)
    requires IsSquare(g, |g|) && IsSquare(d, |g|) && r < |g| && c < |g| && a < |g| && b < |g|
    requires a > r || (a == r && b >= c)
    ensures SweepTo(g, v, exposed, d, r, c)[a][b] == g[a][b]
    decreases r, c
  {
    if c > 0 {
      SweepToRest(g, v, exposed, d, r, c - 1, a, b);
      VisitCells(SweepTo(g, v, exposed, d, r, c - 1), v, exposed, d, r, c - 1);
    } else if r > 0 {
      SweepToRest(g, v, exposed, d, r - 1, |g| - 1, a, b);
      VisitCells(SweepTo(g, v, exposed, d, r - 1, |g| - 1), v, exposed, d, r - 1, |g| - 1);
    }
  }

  /** The whole sweep is the sweep up to (r, c) followed by the sweep from (r, c). */
  lemma {:induction false} SweepFromTo(g: Grid, v: Virus, exposed: Exposure, d: Draws, r: nat, c: nat)
    requires IsSquare(g, |g|) && IsSquare(d, |g|) && r < |g| && c < |g|
    ensures SweepFrom(g, v, exposed, d, 0, 0) == SweepFrom(SweepTo(g, v, exposed, d, r, c), v, exposed, d, r, c)
    decreases r, c
  {
    if c > 0 {
      SweepFromTo(g, v, exposed, d, r, c - 1);
      var t := SweepTo(g, v, exposed, d, r, c - 1);
      assert SweepFrom(t, v, exposed, d, r, c - 1) == SweepFrom(Visit(t, v, exposed, d, r, c - 1), v, exposed, d, r, c);
    } else if r > 0 {
      SweepFromTo(g, v, exposed, d, r - 1, |g| - 1);
      var t := SweepTo(g, v, exposed, d, r - 1, |g| - 1);
      var t' := Visit(t, v, exposed, d, r - 1, |g| - 1);
      assert SweepFrom(t, v, exposed, d, r - 1, |g| - 1) == SweepFrom(t', v, exposed, d, r - 1, |g|);
      assert SweepFrom(t', v, exposed, d, r - 1, |g|) == SweepFrom(t', v, exposed, d, r, 0);
    }
  }

  /** The grid the loop body at (r, c) reads: the cells before (r, c) already
      hold their final values for the day, the cells from (r, c) on still
      hold their values from before the sweep, and (r, c) itself ends as the
      one visit made on that grid. */
  lemma SweepCellVisit(g: Grid, v: Virus, exposed: Exposure, d: Draws, r: nat, c: nat)
    requires IsSquare(g, |g|) && IsSquare(d, |g|) && r < |g| && c < |g|
    ensures var s := SweepTo(g, v, exposed, d, r, c);
            var f := SweepFrom(g, v, exposed, d, 0, 0);
            && (forall a, b :: 0 <= a < |g| && 0 <= b < |g| && (a < r || (a == r && b < c)) ==> s[a][b] == f[a][b])
            && (forall a, b :: 0 <= a < |g| && 0 <= b < |g| && (a > r || (a == r && b >= c)) ==> s[a][b] == g[a][b])
            && f[r][c] == if exposed(s, r, c) then AfterContact(g[r][c], v, d[r][c]) else g[r][c]
  {
    var s := SweepTo(g, v, exposed, d, r, c);
    SweepFromTo(g, v, exposed, d, r, c);
    forall a, b | 0 <= a < |g| && 0 <= b < |g| && (a < r || (a == r && b < c))
      ensures s[a][b] == SweepFrom(g, v, exposed, d, 0, 0)[a][b]
    {
      SweepFromKeepsDone(s, v, exposed, d, r, c, a, b);
    }
    forall a, b | 0 <= a < |g| && 0 <= b < |g| && (a > r || (a == r && b >= c))
      ensures s[a][b] == g[a][b]
    {
      SweepToRest(g, v, exposed, d, r, c, a, b);
    }
    var s' := Visit(s, v, exposed, d, r, c);
    assert SweepFrom(s, v, exposed, d, r, c) == SweepFrom(s', v, exposed, d, r, c + 1);
    SweepFromKeepsDone(s', v, exposed, d, r, c + 1, r, c);
    VisitCells(s, v, exposed, d, r, c);
  }

  /** A whole day at one person: the resolution step, then a contact exactly
      when the person is exposed in the grid as the sweep has left it when it
      reaches them, so an infection caught earlier in the same sweep counts. */
  lemma DayCellVisit(g: Grid, v: Virus, exposed: Exposure, dd: DayDraws, r: nat, c: nat)
    requires IsSquare(g, |g|) && IsSquare(dd.resolve, |g|) && IsSquare(dd.contact, |g|)
    requires r < |g| && c < |g|
    ensures var a := AfterDay(g[r][c], v, dd.resolve[r][c]);
            var s := SweepTo(ResolvePass(g, v, dd.resolve), v, exposed, dd.contact, r, c);
            Day(g, v, exposed, dd)[r][c] == if exposed(s, r, c) then AfterContact(a, v, dd.contact[r][c]) else a
  {
    SweepCellVisit(ResolvePass(g, v, dd.resolve), v, exposed, dd.contact, r, c);
  }

  /** Nobody in the grid is infected. */
  predicate NoneInfected(g: Grid)
  {
    forall i, j :: 0 <= i < |g| && 0 <= j < |g[i]| ==> !g[i][j].isInfected
  }

  /** Where nobody is infected, nobody is exposed, in either neighbourhood. */
  lemma NoneInfectedNotExposed(g: Grid, i: int, j: int, mode: Mode)
    requires NoneInfected(g)
    ensures !Exposed(g, i, j, mode)
  {
    forall row, column ensures !Lookup(g, row, column).isInfected {
      if PyInBounds(g, row, column) {
        var a := PyIndex(row, |g|);
        assert !g[a][PyIndex(column, |g[a]|)].isInfected;
      }
    }
  }

  /** A sweep over a grid where nobody is infected changes nothing. */
  lemma {:induction false} QuietSweep(g: Grid, v: Virus, exposed: Exposure, mode: Mode, d: Draws, i: nat, j: nat)
    requires IsSquare(g, |g|) && IsSquare(d, |g|) && i <= |g| && j <= |g|
    requires Implements(exposed, mode) && NoneInfected(g)
    ensures SweepFrom(g, v, exposed, d, i, j) == g
    decreases |g| - i, |g| - j
  {
    if i < |g| && j == |g| {
      QuietSweep(g, v, exposed, mode, d, i + 1, 0);
    } else if i < |g| {
      NoneInfectedNotExposed(g, i, j, mode);
      assert Visit(g, v, exposed, d, i, j) == g;
      QuietSweep(g, v, exposed, mode, d, i, j + 1);
    }
  }

  /** A day where nobody is infected changes nothing: no illness advances
      and nobody is exposed. */
  lemma QuietDay(g: Grid, v: Virus, exposed: Exposure, mode: Mode, dd: DayDraws)
    requires IsSquare(g, |g|) && IsSquare(dd.resolve, |g|) && IsSquare(dd.contact, |g|)
    requires Implements(exposed, mode) && NoneInfected(g)
    ensures Day(g, v, exposed, dd) == g
  {
    var r := ResolvePass(g, v, dd.resolve);
    GridEqual(r, g, |g|);
    QuietSweep(g, v, exposed, mode, dd.contact, 0, 0);
  }

  /** The same-day cascade: on a 3 by 3 grid where only (0, 0) is infected,
      (0, 2) has no infected neighbour when the day starts, yet it is infected
      by the end of the day, through (0, 1) infected earlier in the sweep. */
  lemma SweepCascades()
    ensures var i := Healthy.(isInfected := true);
            var g := [[i, Healthy, Healthy], [Healthy, Healthy, Healthy], [Healthy, Healthy, Healthy]];
            var ones: Draws := [[1, 1, 1], [1, 1, 1], [1, 1, 1]];
            var v := Virus(100, 0, 5);
            && !Exposed(ResolvePass(g, v, ones), 0, 2, Four)
            && Day(g, v, Rule(Four), DayDraws(ones, ones))[0][2].isInfected
  {
    var h, i := Healthy, Healthy.(isInfected := true);
    var c := h.(isInfected := true, wasInfected := true);
    var g := [[i, h, h], [h, h, h], [h, h, h]];
    var ones: Draws := [[1, 1, 1], [1, 1, 1], [1, 1, 1]];
    var v := Virus(100, 0, 5);
    var e := Rule(Four);
    var r: Grid := [[i.(daysInfected := 1), h, h], [h, h, h], [h, h, h]];
    GridEqual(ResolvePass(g, v, ones), r, 3);
    assert NeighbourFlags(r, 0, 2, Four) == [false, false, false, false];
    var s1: Grid := Visit(r, v, e, ones, 0, 0);
    assert NeighbourFlags(r, 0, 0, Four) == [false, false, false, false];
    assert s1 == r;
    assert NeighbourFlags(s1, 0, 1, Four) == [false, false, true, false];
    assert e(s1, 0, 1) && AfterContact(h, v, 1) == c;
    var s2: Grid := Visit(s1, v, e, ones, 0, 1);
    VisitCells(s1, v, e, ones, 0, 1);
    assert s2[0][1] == c && s2[1][2] == h && s2[2][2] == h;
    assert NeighbourFlags(s2, 0, 2, Four) == [false, false, true, false];
    assert e(s2, 0, 2);
    var s3: Grid := Visit(s2, v, e, ones, 0, 2);
    assert s3[0][2] == c;
    SweepFromKeepsDone(s3, v, e, ones, 0, 3, 0, 2);
    assert SweepFrom(r, v, e, ones, 0, 0) == SweepFrom(s1, v, e, ones, 0, 1);
    assert SweepFrom(s1, v, e, ones, 0, 1) == SweepFrom(s2, v, e, ones, 0, 2);
    assert SweepFrom(s2, v, e, ones, 0, 2) == SweepFrom(s3, v, e, ones, 0, 3);
  }

  // ---------------------------------------------------------------------------
  // Invariants kept by a day

  predicate CellwiseMonotone(g: Grid, g': Grid)
  {
    IsSquare(g, |g|) && IsSquare(g', |g|) &&
    forall i, j :: 0 <= i < |g| && 0 <= j < |g| ==> Monotone(g[i][j], g'[i][j])
  }

  /** A day never clears anybody's `wasInfected` or `isImmune` and never
      revives anybody (an illness that ends does clear `isInfected`);
      illness clocks stay within the duration; people who were well formed
      stay well formed. */
  lemma DayInvariants(g: Grid, v: Virus, exposed: Exposure, dd: DayDraws)
    requires IsSquare(g, |g|) && IsSquare(dd.resolve, |g|) && IsSquare(dd.contact, |g|)
    ensures CellwiseMonotone(g, Day(g, v, exposed, dd))
    ensures forall r, c :: 0 <= r < |g| && 0 <= c < |g| && Bounded(g[r][c], v) ==> Bounded(Day(g, v, exposed, dd)[r][c], v)
    ensures forall r, c :: 0 <= r < |g| && 0 <= c < |g| && Wellformed(g[r][c], v) ==> Wellformed(Day(g, v, exposed, dd)[r][c], v)
  {
    var g' := Day(g, v, exposed, dd);
    if |g| > 0 {
      DayCell(g, v, exposed, dd, 0, 0);
    }
    forall r, c | 0 <= r < |g| && 0 <= c < |g|
      ensures Monotone(g[r][c], g'[r][c])
      ensures Bounded(g[r][c], v) ==> Bounded(g'[r][c], v)
      ensures Wellformed(g[r][c], v) ==> Wellformed(g'[r][c], v)
    {
      DayCell(g, v, exposed, dd, r, c);
      var a := AfterDay(g[r][c], v, dd.resolve[r][c]);
      StepsPreserve(g[r][c], v, dd.resolve[r][c]);
      StepsPreserve(a, v, dd.contact[r][c]);
      MonotoneTransitive(g[r][c], a, AfterContact(a, v, dd.contact[r][c]));
    }
  }

  // ---------------------------------------------------------------------------
  // Statistics

  /** The three counters of `get_stats`. */
  datatype Tally = EverInfected | Immune | Dead

  predicate Counts(h: Health, t: Tally)
  {
    match t
    case EverInfected => h.wasInfected
    case Immune => h.isImmune
    case Dead => !h.isAlive
  }

  function CountRow(row: seq<Health>, t: Tally): nat
  {
    if row == [] then 0
    else CountRow(row[..|row| - 1], t) + (if Counts(row[|row| - 1], t) then 1 else 0)
  }

  function CountGrid(g: Grid, t: Tally): nat
  {
    if g == [] then 0 else CountGrid(g[..|g| - 1], t) + CountRow(g[|g| - 1], t)
  }

  /** `(total_infected, total_immune, total_dead)`. */
  datatype Stats = Stats(infected: nat, immune: nat, dead: nat)

  function GridStats(g: Grid): Stats
  {
    Stats(CountGrid(g, EverInfected), CountGrid(g, Immune), CountGrid(g, Dead))
  }

  predicate StatsLe(a: Stats, b: Stats)
  {
    a.infected <= b.infected && a.immune <= b.immune && a.dead <= b.dead
  }

  lemma {:induction false} CountRowBound(row: seq<Health>, t: Tally)
    ensures CountRow(row, t) <= |row|
  {
    if row != [] {
      CountRowBound(row[..|row| - 1], t);
    }
  }

  lemma {:induction false} CountGridBound(g: Grid, n: nat, t: Tally)
    requires forall i :: 0 <= i < |g| ==> |g[i]| == n
    ensures CountGrid(g, t) <= |g| * n
  {
    if g != [] {
      CountGridBound(g[..|g| - 1], n, t);
      CountRowBound(g[|g| - 1], t);
      assert (|g| - 1) * n + n == |g| * n;
    }
  }

  /** Each counter is between 0 and the population size. */
  lemma StatsBounded(g: Grid, n: nat)
    requires IsSquare(g, n)
    ensures GridStats(g).infected <= n * n && GridStats(g).immune <= n * n && GridStats(g).dead <= n * n
  {
    CountGridBound(g, n, EverInfected);
    CountGridBound(g, n, Immune);
    CountGridBound(g, n, Dead);
  }

  lemma {:induction false} CountRowMonotone(row: seq<Health>, row': seq<Health>, t: Tally)
    requires |row| == |row'| && forall j :: 0 <= j < |row| ==> Monotone(row[j], row'[j])
    ensures CountRow(row, t) <= CountRow(row', t)
  {
    if row != [] {
      CountRowMonotone(row[..|row| - 1], row'[..|row| - 1], t);
    }
  }

  lemma {:induction false} CountGridMonotone(g: Grid, g': Grid, t: Tally)
    requires |g| == |g'|
    requires forall i :: 0 <= i < |g| ==> |g[i]| == |g'[i]| && forall j :: 0 <= j < |g[i]| ==> Monotone(g[i][j], g'[i][j])
    ensures CountGrid(g, t) <= CountGrid(g', t)
  {
    if g != [] {
      CountGridMonotone(g[..|g| - 1], g'[..|g| - 1], t);
      CountRowMonotone(g[|g| - 1], g'[|g| - 1], t);
    }
  }

  /** The statistics never decrease from one day to the next. */
  lemma DayStatsMonotone(g: Grid, v: Virus, exposed: Exposure, dd: DayDraws)
    requires IsSquare(g, |g|) && IsSquare(dd.resolve, |g|) && IsSquare(dd.contact, |g|)
    ensures StatsLe(GridStats(g), GridStats(Day(g, v, exposed, dd)))
  {
    var g' := Day(g, v, exposed, dd);
    DayInvariants(g, v, exposed, dd);
    CountGridMonotone(g, g', EverInfected);
    CountGridMonotone(g, g', Immune);
    CountGridMonotone(g, g', Dead);
  }
  // ---------------------------------------------------------------------------
  // Seeding

  /** The grid `create_people` builds: n rows of n freshly constructed people. */
  function HealthyGrid(n: nat): (g: Grid)
    ensures IsSquare(g, n)
    ensures forall i, j :: 0 <= i < n && 0 <= j < n ==> g[i][j] == Healthy
  {
    seq(n, _ => seq(n, _ => Healthy))
  }

  /** A possible result of `random.sample(range(size), k)`: k distinct values from 0 to size - 1. */
  predicate IsSample(sample: seq<int>, size: int, k: int)
  {
    && |sample| == k
    && (forall a :: 0 <= a < |sample| ==> 0 <= sample[a] < size)
    && (forall a, b :: 0 <= a < b < |sample| ==> sample[a] != sample[b])
  }

  /** `initial_infection` on a snapshot: the sampled location c * n + r marks the
      person at row r and column c infected (the source indexes
      `people[loc % n][loc // n]`, the transpose of row-major order), and
      changes nothing else. */
  function Seeded(g: Grid, sample: seq<int>): (s: Grid)
    requires IsSquare(g, |g|)
    ensures IsSquare(s, |g|)
  {
    var n := |g|;
    seq(n, r requires 0 <= r < n =>
      seq(n, c requires 0 <= c < n =>
        if c * n + r in sample then g[r][c].(isInfected := true) else g[r][c]))
  }

  /** Marks the person at row r and column c infected. */
  function Infect(g: Grid, r: nat, c: nat): (h: Grid)
    requires r < |g| && c < |g[r]|
    ensures |h| == |g| && forall i :: 0 <= i < |g| ==> |h[i]| == |g[i]|
    ensures h[r][c] == g[r][c].(isInfected := true)
    ensures forall i, j :: 0 <= i < |g| && 0 <= j < |g[i]| && (i, j) != (r, c) ==> h[i][j] == g[i][j]
  {
    g[r := g[r][c := g[r][c].(isInfected := true)]]
  }

  lemma GridEqual(g: Grid, h: Grid, n: nat)
    requires IsSquare(g, n) && IsSquare(h, n)
    requires forall i, j :: 0 <= i < n && 0 <= j < n ==> g[i][j] == h[i][j]
    ensures g == h
  {
    assert forall i :: 0 <= i < n ==> g[i] == h[i];
  }

  /** Seeding with no location changes nothing. */
  lemma SeededNone(g: Grid)
    requires IsSquare(g, |g|)
    ensures Seeded(g, []) == g
  {
    GridEqual(Seeded(g, []), g, |g|);
  }

  /** Seeding one more location, the one the source numbers c * n + r,
      infects the cell at row r and column c. */
  lemma SeededStep(g: Grid, s: seq<int>, loc: int, r: nat, c: nat)
    requires IsSquare(g, |g|) && r < |g| && c < |g| && loc == c * |g| + r
    ensures Seeded(g, s + [loc]) == Infect(Seeded(g, s), r, c)
  {
    var n := |g|;
    LocationOfCell(n, r, c);
    forall r', c' | 0 <= r' < n && 0 <= c' < n
      ensures Seeded(g, s + [loc])[r'][c'] == Infect(Seeded(g, s), r, c)[r'][c']
    {
      LocationOfCell(n, r', c');
    }
    GridEqual(Seeded(g, s + [loc]), Infect(Seeded(g, s), r, c), n);
  }

  /** The cells whose person is currently infected. */
  function InfectedCells(g: Grid): set<(int, int)>
  {
    set r, c | 0 <= r < |g| && 0 <= c < |g[r]| && g[r][c].isInfected :: (r, c)
  }

  /** The cell `people[loc % n][loc // n]` that a sampled location names. */
  function SampleCell(loc: int, n: nat): (int, int)
    requires n > 0
  {
    (loc % n, loc / n)
  }

  function SampleCells(sample: seq<int>, n: nat): set<(int, int)>
    requires n > 0
  {
    set loc | loc in sample :: SampleCell(loc, n)
  }

  function Elements(s: seq<int>): set<int>
  {
    set x | x in s
  }

  /** The set `range(size)`. */
  function Range(size: nat): set<int>
  {
    if size == 0 then {} else Range(size - 1) + {size - 1}
  }

  lemma PrefixStep(s: seq<int>, k: nat)
    requires k < |s|
    ensures s[..k + 1] == s[..k] + [s[k]]
  {
  }

  lemma MulAtLeast(a: int, n: int)
    requires a >= 1 && n > 0
    ensures a * n >= n
  {
  }

  lemma Distributes(a: int, b: int, n: int)
    ensures (a - b) * n == a * n - b * n
  {
  }

  /** The location of a cell as the source numbers it is in range. */
  lemma LocationInRange(n: nat, r: int, c: int)
    requires 0 <= r < n && 0 <= c < n
    ensures 0 <= c * n + r < n * n
  {
    if c < n - 1 {
      Distributes(n - 1, c, n);
      MulAtLeast(n - 1 - c, n);
    }
  }

  /** The location of a cell as the source numbers it names that cell. */
  lemma LocationOfCell(n: nat, r: int, c: int)
    requires 0 <= r < n && 0 <= c < n
    ensures 0 <= c * n + r < n * n
    ensures SampleCell(c * n + r, n) == (r, c)
  {
    LocationInRange(n, r, c);
    var x := c * n + r;
    var q, m := x / n, x % n;
    assert q * n + m == x;
    if q < c {
      Distributes(c, q, n);
      MulAtLeast(c - q, n);
    } else if q > c {
      Distributes(q, c, n);
      MulAtLeast(q - c, n);
    }
  }

  /** A sampled location names a cell inside the grid. */
  lemma CellOfLocation(loc: int, n: nat)
    requires n > 0 && 0 <= loc < n * n
    ensures 0 <= loc % n < n && 0 <= loc / n < n && (loc / n) * n + loc % n == loc
  {
  }

  lemma {:induction false} DistinctCard(s: seq<int>)
    requires forall a, b :: 0 <= a < b < |s| ==> s[a] != s[b]
    ensures |Elements(s)| == |s|
  {
    if s != [] {
      var t := s[..|s| - 1];
      DistinctCard(t);
      assert Elements(s) == Elements(t) + {s[|s| - 1]};
      assert s[|s| - 1] !in Elements(t);
    }
  }

  lemma {:induction false} RangeFacts(size: nat)
    ensures |Range(size)| == size
    ensures forall x :: x in Range(size) <==> 0 <= x < size
  {
    if size > 0 {
      RangeFacts(size - 1);
    }
  }

  lemma SubsetCardLe(a: set<int>, b: set<int>)
    requires a <= b
    ensures |a| <= |b|
  {
    assert b == a + (b - a);
    assert a !! (b - a);
  }

  /** Distinct locations inside the grid name distinct cells. */
  lemma {:induction false} SampleCellsCard(sample: seq<int>, n: nat)
    requires n > 0 && IsSample(sample, n * n, |sample|)
    ensures |SampleCells(sample, n)| == |sample|
  {
    if sample != [] {
      var t, loc := sample[..|sample| - 1], sample[|sample| - 1];
      assert IsSample(t, n * n, |t|);
      SampleCellsCard(t, n);
      assert SampleCells(sample, n) == SampleCells(t, n) + {SampleCell(loc, n)};
      if SampleCell(loc, n) in SampleCells(t, n) {
        var x :| x in t && SampleCell(x, n) == SampleCell(loc, n);
        CellOfLocation(x, n);
        CellOfLocation(loc, n);
        assert false;
      }
    }
  }

  /** Seeding k distinct locations of a fresh grid leaves exactly the k distinct
      cells they name infected. */
  lemma SeedingInfectsSample(sample: seq<int>, n: nat, k: int)
    requires IsSample(sample, n * n, k)
    ensures n > 0 ==> InfectedCells(Seeded(HealthyGrid(n), sample)) == SampleCells(sample, n)
    ensures |InfectedCells(Seeded(HealthyGrid(n), sample))| == k
  {
    var g := Seeded(HealthyGrid(n), sample);
    if n == 0 {
      assert InfectedCells(g) == {};
      RangeFacts(0);
      DistinctCard(sample);
      assert Elements(sample) <= Range(0);
      SubsetCardLe(Elements(sample), Range(0));
    } else {
      forall p | p in InfectedCells(g)
        ensures p in SampleCells(sample, n)
      {
        LocationOfCell(n, p.0, p.1);
      }
      forall p | p in SampleCells(sample, n)
        ensures p in InfectedCells(g)
      {
        var loc :| loc in sample && p == SampleCell(loc, n);
        CellOfLocation(loc, n);
        LocationOfCell(n, p.0, p.1);
      }
      SampleCellsCard(sample, n);
    }
  }

  /** Sampling as many locations as there are people infects everybody. */
  lemma SeedingEveryone(sample: seq<int>, n: nat)
    requires IsSample(sample, n * n, n * n)
    ensures forall r, c :: 0 <= r < n && 0 <= c < n ==> Seeded(HealthyGrid(n), sample)[r][c].isInfected
  {
    DistinctCard(sample);
    RangeFacts(n * n);
    forall r, c | 0 <= r < n && 0 <= c < n
      ensures Seeded(HealthyGrid(n), sample)[r][c].isInfected
    {
      LocationOfCell(n, r, c);
      var loc := c * n + r;
      if loc !in sample {
        assert Elements(sample) <= Range(n * n) - {loc};
        SubsetCardLe(Elements(sample), Range(n * n) - {loc});
        assert false;
      }
    }
  }

  /** Seeded people join the ever-infected count once a contact succeeds:
      on a 2 by 2 grid seeded at locations 0 and 1, the seeded cell (0, 0)
      sees the seeded cell (1, 0) through the wrap, and after one day with
      risk 100 it is counted. */
  lemma SeededJoinsCount()
    ensures var g := Seeded(HealthyGrid(2), [0, 1]);
            var ones: Draws := [[1, 1], [1, 1]];
            !g[0][0].wasInfected &&
            Day(g, Virus(100, 0, 5), Rule(Four), DayDraws(ones, ones))[0][0].wasInfected
  {
    var g := Seeded(HealthyGrid(2), [0, 1]);
    var ones: Draws := [[1, 1], [1, 1]];
    var v := Virus(100, 0, 5);
    var r: Grid := ResolvePass(g, v, ones);
    assert g[1][0].isInfected && g[0][0] == Healthy.(isInfected := true);
    assert r[1][0].isInfected && !r[0][0].wasInfected;
    assert Lookup(r, -1, 0) == r[1][0];
    assert Exposed(r, 0, 0, Four);
    VisitCells(r, v, Rule(Four), ones, 0, 0);
    var r1: Grid := Visit(r, v, Rule(Four), ones, 0, 0);
    assert r1[0][0].wasInfected;
    SweepFromKeepsDone(r1, v, Rule(Four), ones, 0, 1, 0, 0);
    assert SweepFrom(r, v, Rule(Four), ones, 0, 0) == SweepFrom(r1, v, Rule(Four), ones, 0, 1);
  }
}
