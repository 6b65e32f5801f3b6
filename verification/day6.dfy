/** Day 6: a guard walks a grid of free cells and obstacles. It steps in its
    heading until the next step would leave the grid; in front of an obstacle
    it turns clockwise instead of stepping. Part 1 counts the cells the guard
    visits; part 2 counts the free cells whose blocking traps the guard in a
    loop, which is detected when a cell is entered twice with the same
    heading. */
module Day6 {
  import opened GoText

  /** The compass headings, plus the empty heading of a guard on a grid that
      holds no '^' (the direction string is then "" and matches no case). */
  datatype Heading = North | East | South | West | Unset

  /** One grid cell: whether it holds an obstacle, whether the guard has been
      on it, and how often it was entered with each heading. */
  datatype Cell = Cell(obstructed: bool, visited: bool,
                       visitedN: int, visitedE: int, visitedS: int, visitedW: int)

  datatype Guard = Guard(row: int, col: int, heading: Heading, deathLoop: bool)

  /** The clockwise quarter turn N -> E -> S -> W -> N. */
  function TurnRight(d: Heading): Heading
  {
    match d
    case North => East
    case East => South
    case South => West
    case West => North
    case Unset => Unset
  }

  /** The cell the guard would step onto next. */
  function Ahead(g: Guard): (int, int)
  {
    match g.heading
    case North => (g.row - 1, g.col)
    case East => (g.row, g.col + 1)
    case South => (g.row + 1, g.col)
    case West => (g.row, g.col - 1)
    case Unset => (g.row, g.col)
  }

  /** A cell after the guard entered it with heading d. */
  function Visit(c: Cell, d: Heading): Cell
  {
    c.(visited := true,
       visitedN := c.visitedN + (if d == North then 1 else 0),
       visitedE := c.visitedE + (if d == East then 1 else 0),
       visitedS := c.visitedS + (if d == South then 1 else 0),
       visitedW := c.visitedW + (if d == West then 1 else 0))
  }

  /** A cell entered more than once with the same heading. */
  predicate Looping(c: Cell)
  {
    c.visitedN > 1 || c.visitedE > 1 || c.visitedS > 1 || c.visitedW > 1
  }

  /** The cell NewMatrix builds from one input character. */
  function InitialCell(ch: char): Cell
  {
    Cell(ch == '#', ch == '^', 0, 0, 0, 0)
  }

  /** (y, x) comes before (j, i) in row-major order. */
  predicate Before(y: int, x: int, j: int, i: int)
  {
    y < j || (y == j && x < i)
  }

  predicate HasCaret(rows: seq<string>, w: nat)
    requires RowsCoverWidth(rows) && w <= |rows[0]|
  {
    exists y, x :: 0 <= y < |rows| && 0 <= x < w && rows[y][x] == '^'
  }

  /** (r, c) holds the last '^' of the grid in row-major order. */
  predicate IsLastCaret(rows: seq<string>, w: nat, r: int, c: int)
    requires RowsCoverWidth(rows) && w <= |rows[0]|
  {
    0 <= r < |rows| && 0 <= c < w && rows[r][c] == '^' &&
    forall y, x :: 0 <= y < |rows| && 0 <= x < w && Before(r, c, y, x) ==> rows[y][x] != '^'
  }

  /** A grid has at most one last '^'. */
  lemma LastCaretUnique(rows: seq<string>, w: nat, r: int, c: int, r': int, c': int)
    requires RowsCoverWidth(rows) && w <= |rows[0]|
    requires IsLastCaret(rows, w, r, c) && IsLastCaret(rows, w, r', c')
    ensures r == r' && c == c'
  {
  }

  /** No '^' lies at or after (r, c) and before (j, i) in row-major order. */
  predicate CaretFreeBetween(rows: seq<string>, w: nat, r: int, c: int, j: int, i: int)
    requires RowsCoverWidth(rows) && w <= |rows[0]|
  {
    forall y, x :: 0 <= y < |rows| && 0 <= x < w && !Before(y, x, r, c) && Before(y, x, j, i) ==>
      rows[y][x] != '^'
  }

  /** The guard after NewMatrix's scan has reached (j, i): still the default
      guard when no '^' came before, otherwise on the last '^' so far. */
  predicate ScanState(rows: seq<string>, w: nat, g: Guard, j: int, i: int)
    requires RowsCoverWidth(rows) && w <= |rows[0]|
  {
    if g.heading == Unset then
      g == Guard(0, 0, Unset, false) && CaretFreeBetween(rows, w, 0, 0, j, i)
    else
      g.heading == North && !g.deathLoop &&
      0 <= g.row < |rows| && 0 <= g.col < w && Before(g.row, g.col, j, i) &&
      rows[g.row][g.col] == '^' && CaretFreeBetween(rows, w, g.row, g.col + 1, j, i)
  }

  lemma ScanStep(rows: seq<string>, w: nat, g: Guard, j: int, i: int)
    requires RowsCoverWidth(rows) && w <= |rows[0]|
    requires 0 <= j < |rows| && 0 <= i < w
    requires ScanState(rows, w, g, j, i)
    ensures ScanState(rows, w, if rows[j][i] == '^' then Guard(j, i, North, false) else g, j, i + 1)
  {
  }

  lemma ScanNextRow(rows: seq<string>, w: nat, g: Guard, j: int)
    requires RowsCoverWidth(rows) && w <= |rows[0]|
    requires 0 <= j < |rows|
    requires ScanState(rows, w, g, j, w)
    ensures ScanState(rows, w, g, j + 1, 0)
  {
  }

  lemma ScanDone(rows: seq<string>, w: nat, g: Guard)
    requires RowsCoverWidth(rows) && w <= |rows[0]|
    requires ScanState(rows, w, g, |rows|, 0)
    ensures HasCaret(rows, w) ==> g.heading == North && !g.deathLoop && IsLastCaret(rows, w, g.row, g.col)
    ensures !HasCaret(rows, w) ==> g == Guard(0, 0, Unset, false)
  {
    if g.heading != Unset {
      assert HasCaret(rows, w) by { assert rows[g.row][g.col] == '^'; }
    }
  }

  /** A grid value of |g| lines of w cells each. */
  predicate Rect(g: seq<seq<Cell>>, w: nat)
  {
    forall y :: 0 <= y < |g| ==> |g[y]| == w
  }

  predicate Inside(g: seq<seq<Cell>>, p: (int, int))
  {
    0 <= p.0 < |g| && 0 <= p.1 < |g[p.0]|
  }

  /** g and h have the same lines, each of the same length. */
  predicate SameShape(g: seq<seq<Cell>>, h: seq<seq<Cell>>)
  {
    |g| == |h| && forall y :: 0 <= y < |g| ==> |g[y]| == |h[y]|
  }

  /** Grids of one shape that agree cell by cell are equal. */
  lemma SameGrid(g: seq<seq<Cell>>, h: seq<seq<Cell>>)
    requires SameShape(g, h)
    requires forall y, x :: 0 <= y < |g| && 0 <= x < |g[y]| ==> g[y][x] == h[y][x]
    ensures g == h
  {
    forall y | 0 <= y < |g|
      ensures g[y] == h[y]
    {
      assert forall x :: 0 <= x < |g[y]| ==> g[y][x] == h[y][x];
    }
  }

  /** Number of visited cells among the first n cells of a line. */
  function RowVisited(line: seq<Cell>, n: nat): (r: nat)
    requires n <= |line|
    ensures r <= n
  {
    if n == 0 then 0 else RowVisited(line, n - 1) + (if line[n - 1].visited then 1 else 0)
  }

  /** Number of visited cells in the first m lines of a grid of width w. */
  function GridVisited(g: seq<seq<Cell>>, w: nat, m: nat): (r: nat)
    requires Rect(g, w) && m <= |g|
    ensures r <= m * w
  {
    if m == 0 then 0
    else
      var r := GridVisited(g, w, m - 1) + RowVisited(g[m - 1], w);
      assert r <= (m - 1) * w + w;
      r
  }

  lemma {:induction false} RowVisitedPositive(line: seq<Cell>, n: nat, x: int)
    requires 0 <= x < n <= |line|
    requires line[x].visited
    ensures RowVisited(line, n) >= 1
  {
    if x < n - 1 {
      RowVisitedPositive(line, n - 1, x);
    }
  }

  /** A grid with a visited cell has a positive visited count. */
  lemma {:induction false} GridVisitedPositive(g: seq<seq<Cell>>, w: nat, m: nat, y: int, x: int)
    requires Rect(g, w) && 0 <= y < m <= |g| && 0 <= x < w
    requires g[y][x].visited
    ensures GridVisited(g, w, m) >= 1
  {
    if y < m - 1 {
      GridVisitedPositive(g, w, m - 1, y, x);
    } else {
      RowVisitedPositive(g[y], w, x);
    }
  }

  /** The grid NewMatrix builds from the first w columns of the lines. */
  function InitialGrid(rows: seq<string>, w: nat): (g: seq<seq<Cell>>)
    requires RowsCoverWidth(rows) && w <= |rows[0]|
    ensures |g| == |rows| && Rect(g, w)
  {
    seq(|rows|, y requires 0 <= y < |rows| => seq(w, x requires 0 <= x < w => InitialCell(rows[y][x])))
  }

  /** The guard NewMatrix places: on the last '^' facing north, or the
      zero guard when the grid has no '^'. */
  predicate IsStart(rows: seq<string>, w: nat, g: Guard)
    requires RowsCoverWidth(rows) && w <= |rows[0]|
  {
    (HasCaret(rows, w) ==> g.heading == North && !g.deathLoop && IsLastCaret(rows, w, g.row, g.col)) &&
    (!HasCaret(rows, w) ==> g == Guard(0, 0, Unset, false))
  }

  /** A grid determines its starting guard. */
  lemma StartUnique(rows: seq<string>, w: nat, g: Guard, g': Guard)
    requires RowsCoverWidth(rows) && w <= |rows[0]|
    requires IsStart(rows, w, g) && IsStart(rows, w, g')
    ensures g == g'
  {
    if HasCaret(rows, w) {
      LastCaretUnique(rows, w, g.row, g.col, g'.row, g'.col);
    }
  }

  /** Everything MoveGuard reads and writes: the grid and the guard. */
  datatype Walker = Walker(grid: seq<seq<Cell>>, guard: Guard)

  /** The guard stands on the grid, and a guard with a heading stands on a
      visited cell. */
  predicate OnVisited(s: Walker)
  {
    Inside(s.grid, (s.guard.row, s.guard.col)) &&
    (s.guard.heading != Unset ==> s.grid[s.guard.row][s.guard.col].visited)
  }

  /** The cell one MoveGuard call enters: the one ahead, when it lies on
      the grid and holds no obstacle. */
  function Entering(s: Walker): set<(int, int)>
  {
    var p := Ahead(s.guard);
    if Inside(s.grid, p) && !s.grid[p.0][p.1].obstructed then {p} else {}
  }

  /** h has g's shape and g's obstacles. */
  predicate KeepsObstacles(g: seq<seq<Cell>>, h: seq<seq<Cell>>)
  {
    SameShape(g, h) &&
    forall y, x :: 0 <= y < |g| && 0 <= x < |g[y]| ==> h[y][x].obstructed == g[y][x].obstructed
  }

  /** Why a walk stops: a death loop on the cell the guard stands on, or
      the guard facing the edge of the grid. */
  predicate Halted(s: Walker)
  {
    (s.guard.deathLoop ==>
       Inside(s.grid, (s.guard.row, s.guard.col)) && Looping(s.grid[s.guard.row][s.guard.col])) &&
    (!s.guard.deathLoop ==> !Inside(s.grid, Ahead(s.guard)))
  }

  /** One MoveGuard call on values: the new state and the value returned. */
  function Step(s: Walker): (r: (Walker, bool))
    ensures SameShape(r.0.grid, s.grid)
  {
    var guard := s.guard.(deathLoop := false);
    var p := Ahead(guard);
    if !Inside(s.grid, p) then
      (Walker(s.grid, guard), false)
    else if s.grid[p.0][p.1].obstructed then
      (Walker(s.grid, guard.(heading := TurnRight(guard.heading))), true)
    else
      var c := Visit(s.grid[p.0][p.1], guard.heading);
      (Walker(s.grid[p.0 := s.grid[p.0][p.1 := c]], guard.(row := p.0, col := p.1, deathLoop := Looping(c))),
       !Looping(c))
  }

  /** One call keeps the grid's shape and obstacles and gives a visit mark
      to the cell it enters and no other. It returns false exactly when it
      leaves the walk halted: by a death loop, or by refusing a step off
      the grid with nothing else changed. A guard on the grid stays on it,
      keeps having or not having a heading, and a guard with a heading
      stays on a visited cell. */
  lemma StepFacts(s: Walker)
    ensures var r := Step(s);
            KeepsObstacles(s.grid, r.0.grid) &&
            (forall y, x :: 0 <= y < |s.grid| && 0 <= x < |s.grid[y]| ==>
               (r.0.grid[y][x].visited <==> s.grid[y][x].visited || (y, x) in Entering(s))) &&
            (r.1 ==> !r.0.guard.deathLoop) &&
            (!r.1 ==> Halted(r.0)) &&
            ((!r.1 && !r.0.guard.deathLoop) ==> r.0 == Walker(s.grid, s.guard.(deathLoop := false))) &&
            (Inside(s.grid, (s.guard.row, s.guard.col)) ==> Inside(r.0.grid, (r.0.guard.row, r.0.guard.col))) &&
            (r.0.guard.heading == Unset) == (s.guard.heading == Unset) &&
            (OnVisited(s) ==> OnVisited(r.0))
  {
  }

  /** `for MoveGuard() {}` cut off after fuel calls: the final state, and
      whether a call returned false within fuel. */
  function Run(s: Walker, fuel: nat): (r: (Walker, bool))
    decreases fuel
    ensures SameShape(r.0.grid, s.grid)
  {
    if fuel == 0 then (s, false)
    else
      var t := Step(s);
      if !t.1 then (t.0, true) else Run(t.0, fuel - 1)
  }

  /** A run keeps the grid's shape and obstacles; when it stops, the guard
      is halted. A guard on the grid stays on it, keeps having or not
      having a heading, and a guard with a heading stays on a visited
      cell. */
  lemma {:induction false} RunFacts(s: Walker, fuel: nat)
    decreases fuel
    ensures var r := Run(s, fuel);
            KeepsObstacles(s.grid, r.0.grid) &&
            (r.1 ==> Halted(r.0)) &&
            (Inside(s.grid, (s.guard.row, s.guard.col)) ==> Inside(r.0.grid, (r.0.guard.row, r.0.guard.col))) &&
            (r.0.guard.heading == Unset) == (s.guard.heading == Unset) &&
            (OnVisited(s) ==> OnVisited(r.0))
  {
    if fuel > 0 {
      var t := Step(s);
      StepFacts(s);
      if t.1 {
        RunFacts(t.0, fuel - 1);
      }
    }
  }

  /** A run of at least one call is that call followed by the rest. */
  lemma RunAfterStep(s: Walker, t: Walker, ok: bool, fuel: nat, rest: nat)
    requires fuel == rest + 1 && (t, ok) == Step(s)
    ensures Run(s, fuel) == if ok then Run(t, rest) else (t, true)
  {
  }

  /** The cells the guard enters during Run(s, fuel). */
  function Entered(s: Walker, fuel: nat): set<(int, int)>
    decreases fuel
  {
    if fuel == 0 then {}
    else
      var t := Step(s);
      Entering(s) + (if t.1 then Entered(t.0, fuel - 1) else {})
  }

  /** After a run, the visited cells are the ones visited before and the
      ones the guard entered on the way. */
  lemma {:induction false} RunVisits(s: Walker, fuel: nat)
    decreases fuel
    ensures forall y, x :: 0 <= y < |s.grid| && 0 <= x < |s.grid[y]| ==>
              (Run(s, fuel).0.grid[y][x].visited <==> s.grid[y][x].visited || (y, x) in Entered(s, fuel))
  {
    if fuel > 0 {
      var t := Step(s);
      StepFacts(s);
      if t.1 {
        RunVisits(t.0, fuel - 1);
      }
    }
  }

  /** The grid after CellReset: every cell keeps only its obstacle. */
  function Reset(g: seq<seq<Cell>>): (r: seq<seq<Cell>>)
    ensures SameShape(r, g)
  {
    seq(|g|, y requires 0 <= y < |g| =>
      seq(|g[y]|, x requires 0 <= x < |g[y]| => Cell(g[y][x].obstructed, false, 0, 0, 0, 0)))
  }

  /** Grids with the same obstacles reset to the same grid. */
  lemma ResetKeepsObstaclesOnly(g: seq<seq<Cell>>, h: seq<seq<Cell>>)
    requires KeepsObstacles(g, h)
    ensures Reset(g) == Reset(h)
  {
    SameGrid(Reset(g), Reset(h));
  }

  /** The grid with an obstacle put on cell p. */
  function Block(g: seq<seq<Cell>>, p: (int, int)): (r: seq<seq<Cell>>)
    requires Inside(g, p)
    ensures SameShape(r, g)
  {
    g[p.0 := g[p.0][p.1 := g[p.0][p.1].(obstructed := true)]]
  }

  /** One trial of day6part2 for cell p of g, with the guard starting at
      start facing north: when p is free and not the start, the walk on the
      reset grid with p blocked; the result is (stopped, trapped), trapped
      saying the walk stopped in a death loop. Other cells are not tried. */
  function Trial(g: seq<seq<Cell>>, start: (int, int), p: (int, int), fuel: nat): (r: (bool, bool))
    requires Inside(g, p)
    ensures r.1 ==> r.0 && !g[p.0][p.1].obstructed && p != start
  {
    if !g[p.0][p.1].obstructed && p != start then
      var w := Run(Walker(Block(Reset(g), p), Guard(start.0, start.1, North, false)), fuel);
      (w.1, w.1 && w.0.guard.deathLoop)
    else
      (true, false)
  }

  /** A trial depends only on the grid's obstacles. */
  lemma TrialKeepsObstaclesOnly(g: seq<seq<Cell>>, h: seq<seq<Cell>>, start: (int, int), p: (int, int), fuel: nat)
    requires KeepsObstacles(g, h) && Inside(g, p)
    ensures Trial(g, start, p, fuel) == Trial(h, start, p, fuel)
  {
    ResetKeepsObstaclesOnly(g, h);
  }

  /** The cells before (j, i) in row-major order whose trial traps the
      guard: free cells, none of them the start. */
  function BlockersBefore(g: seq<seq<Cell>>, start: (int, int), fuel: nat, j: int, i: int): (r: set<(int, int)>)
    ensures forall p :: p in r ==>
              Inside(g, p) && Before(p.0, p.1, j, i) && !g[p.0][p.1].obstructed && p != start
  {
    set y, x | 0 <= y < |g| && 0 <= x < |g[y]| && Before(y, x, j, i) && Trial(g, start, (y, x), fuel).1 :: (y, x)
  }

  /** Every trial for a cell before (j, i) in row-major order stops
      within fuel. */
  predicate AllStopBefore(g: seq<seq<Cell>>, start: (int, int), fuel: nat, j: int, i: int)
  {
    forall y, x :: 0 <= y < |g| && 0 <= x < |g[y]| && Before(y, x, j, i) ==> Trial(g, start, (y, x), fuel).0
  }

  lemma AllStopNext(g: seq<seq<Cell>>, start: (int, int), fuel: nat, j: int, i: int, next: int)
    requires Inside(g, (j, i)) && next == i + 1
    requires AllStopBefore(g, start, fuel, j, i) && Trial(g, start, (j, i), fuel).0
    ensures AllStopBefore(g, start, fuel, j, next)
  {
  }

  lemma AllStopNextRow(g: seq<seq<Cell>>, w: nat, start: (int, int), fuel: nat, j: int, next: int)
    requires Rect(g, w) && next == j + 1
    requires AllStopBefore(g, start, fuel, j, w)
    ensures AllStopBefore(g, start, fuel, next, 0)
  {
  }

  /** The cells of g whose blocking traps the guard. */
  function Blockers(g: seq<seq<Cell>>, start: (int, int), fuel: nat): set<(int, int)>
  {
    BlockersBefore(g, start, fuel, |g|, 0)
  }

  /** Moving one cell further in row-major order adds that cell exactly
      when its trial traps the guard. */
  lemma BlockersNext(g: seq<seq<Cell>>, start: (int, int), fuel: nat, j: int, i: int, next: int)
    requires Inside(g, (j, i)) && next == i + 1
    ensures BlockersBefore(g, start, fuel, j, next) ==
              BlockersBefore(g, start, fuel, j, i) + (if Trial(g, start, (j, i), fuel).1 then {(j, i)} else {})
  {
  }

  /** The end of a line is the start of the next. */
  lemma BlockersNextRow(g: seq<seq<Cell>>, w: nat, start: (int, int), fuel: nat, j: int, next: int)
    requires Rect(g, w) && next == j + 1
    ensures BlockersBefore(g, start, fuel, j, w) == BlockersBefore(g, start, fuel, next, 0)
  {
  }

  class Matrix {
    /** The input lines. */
    const rows: seq<string>
    /** cells[j, i] is the cell in line j, column i. */
    const cells: array2<Cell>
    var guard: Guard

    /** The guard stands inside the grid. */
    predicate Valid()
      reads this
    {
      0 <= guard.row < cells.Length0 && 0 <= guard.col < cells.Length1
    }

    predicate InGrid(p: (int, int))
      reads this
    {
      0 <= p.0 < cells.Length0 && 0 <= p.1 < cells.Length1
    }

    /** The cells as a grid value. */
    function Grid(): (g: seq<seq<Cell>>)
      reads cells
      ensures |g| == cells.Length0 && Rect(g, cells.Length1)
      ensures forall y, x :: 0 <= y < cells.Length0 && 0 <= x < cells.Length1 ==> g[y][x] == cells[y, x]
    {
      seq(cells.Length0, y requires 0 <= y < cells.Length0 reads cells =>
        seq(cells.Length1, x requires 0 <= x < cells.Length1 reads cells => cells[y, x]))
    }

    /** The grid and the guard as a value. */
    function State(): Walker
      reads this, cells
    {
      Walker(Grid(), guard)
    }

    /** The next step would take the guard off the grid. */
    predicate Leaves()
      reads this
    {
      !InGrid(Ahead(guard))
    }

    /** The next step would run into an obstacle. */
    predicate Bumps()
      reads this, cells
    {
      InGrid(Ahead(guard)) && cells[Ahead(guard).0, Ahead(guard).1].obstructed
    }

    /** A guard with a heading stands on a visited cell. */
    predicate GuardOnVisited()
      reads this, cells
    {
      Valid() && (guard.heading != Unset ==> cells[guard.row, guard.col].visited)
    }

    /** NewMatrix: one cell per character of the first |lines[0]| columns of
        each line, obstructed exactly at '#'; every '^' is marked visited and
        the guard stands on the last one, facing north. */
    constructor (input: string)
      requires RowsCoverWidth(Split(input, "\n"))
      ensures rows == Split(input, "\n")
      ensures cells.Length0 == |rows| && cells.Length1 == |rows[0]|
      ensures forall j, i :: 0 <= j < cells.Length0 && 0 <= i < cells.Length1 ==>
                cells[j, i] == InitialCell(rows[j][i])
      ensures HasCaret(rows, cells.Length1) ==>
                guard.heading == North && !guard.deathLoop &&
                IsLastCaret(rows, cells.Length1, guard.row, guard.col)
      ensures !HasCaret(rows, cells.Length1) ==> guard == Guard(0, 0, Unset, false)
      ensures cells.Length1 > 0 ==> GuardOnVisited()
      ensures Grid() == InitialGrid(rows, cells.Length1)
      ensures fresh(cells)
    {
      var lines := Split(input, "\n");
      rows := lines;
      cells := new Cell[|lines|, |lines[0]|];
      guard := Guard(0, 0, Unset, false);
      new;
      FillCells();
      PlaceGuard();
      SameGrid(Grid(), InitialGrid(rows, cells.Length1));
    }

    /** The grid has one line per input line and the first line's width. */
    predicate Shaped()
      reads this
    {
      RowsCoverWidth(rows) && cells.Length0 == |rows| && cells.Length1 == |rows[0]|
    }

    /** NewMatrix's first scan: a fresh cell per position, obstructed at '#'. */
    method FillCells()
      requires Shaped()
      modifies cells
      ensures forall y, x :: 0 <= y < cells.Length0 && 0 <= x < cells.Length1 ==>
                cells[y, x] == Cell(rows[y][x] == '#', false, 0, 0, 0, 0)
    {
      var h, w := cells.Length0, cells.Length1;
      var j := 0;
      while j < h
        invariant 0 <= j <= h
        invariant forall y, x :: 0 <= y < j && 0 <= x < w ==>
                    cells[y, x] == Cell(rows[y][x] == '#', false, 0, 0, 0, 0)
      {
        var i := 0;
        while i < w
          invariant 0 <= i <= w
          invariant forall y, x :: 0 <= y < h && 0 <= x < w && Before(y, x, j, i) ==>
                      cells[y, x] == Cell(rows[y][x] == '#', false, 0, 0, 0, 0)
        {
          var cell := Cell(false, false, 0, 0, 0, 0);
          if rows[j][i] == '#' {
            cell := cell.(obstructed := true);
          }
          cells[j, i] := cell;
          i := i + 1;
        }
        j := j + 1;
      }
    }

    /** NewMatrix's second scan has handled the cells before (j, i): those
        are as NewMatrix leaves them, the rest as the first scan left them,
        and the guard is where the scan put it. */
    predicate ScannedUpTo(j: int, i: int)
      reads this, cells
    {
      Shaped() &&
      (forall y, x :: 0 <= y < cells.Length0 && 0 <= x < cells.Length1 && Before(y, x, j, i) ==>
         cells[y, x] == InitialCell(rows[y][x])) &&
      (forall y, x :: 0 <= y < cells.Length0 && 0 <= x < cells.Length1 && !Before(y, x, j, i) ==>
         cells[y, x] == Cell(rows[y][x] == '#', false, 0, 0, 0, 0)) &&
      ScanState(rows, cells.Length1, guard, j, i)
    }

    /** NewMatrix's second scan: every '^' is marked visited and the guard is
        put on it facing north, so it ends on the last one. */
    method PlaceGuard()
      requires Shaped()
      requires guard == Guard(0, 0, Unset, false)
      requires forall y, x :: 0 <= y < cells.Length0 && 0 <= x < cells.Length1 ==>
                 cells[y, x] == Cell(rows[y][x] == '#', false, 0, 0, 0, 0)
      modifies this, cells
      ensures forall j, i :: 0 <= j < cells.Length0 && 0 <= i < cells.Length1 ==>
                cells[j, i] == InitialCell(rows[j][i])
      ensures HasCaret(rows, cells.Length1) ==>
                guard.heading == North && !guard.deathLoop &&
                IsLastCaret(rows, cells.Length1, guard.row, guard.col)
      ensures !HasCaret(rows, cells.Length1) ==> guard == Guard(0, 0, Unset, false)
    {
      var j := 0;
      while j < cells.Length0
        invariant 0 <= j <= cells.Length0
        invariant ScannedUpTo(j, 0)
      {
        ScanRow(j);
        j := j + 1;
      }
      ScanDone(rows, cells.Length1, guard);
    }

    /** One row of the second scan. */
    method ScanRow(j: int)
      requires 0 <= j < cells.Length0 && ScannedUpTo(j, 0)
      modifies this, cells
      ensures ScannedUpTo(j + 1, 0)
    {
      var w := cells.Length1;
      var i := 0;
      while i < w
        invariant 0 <= i <= w
        invariant ScannedUpTo(j, i)
      {
        ScanCell(j, i);
        i := i + 1;
      }
      ScanNextRow(rows, w, guard, j);
    }

    /** One cell of the second scan. */
    method ScanCell(j: int, i: int)
      requires 0 <= j < cells.Length0 && 0 <= i < cells.Length1 && ScannedUpTo(j, i)
      modifies this, cells
      ensures ScannedUpTo(j, i + 1)
    {
      ScanStep(rows, cells.Length1, guard, j, i);
      if rows[j][i] == '^' {
        guard := Guard(j, i, North, false);
        cells[j, i] := cells[j, i].(visited := true);
      }
    }

    /** CellReset: clears every visit mark and counter, keeping the obstacles. */
    method CellReset()
      modifies cells
      ensures forall y, x :: 0 <= y < cells.Length0 && 0 <= x < cells.Length1 ==>
                cells[y, x] == Cell(old(cells[y, x]).obstructed, false, 0, 0, 0, 0)
    {
      var j := 0;
      while j < cells.Length0
        invariant 0 <= j <= cells.Length0
        invariant forall y, x :: 0 <= y < cells.Length0 && 0 <= x < cells.Length1 ==>
                    cells[y, x] == if y < j then Cell(old(cells[y, x]).obstructed, false, 0, 0, 0, 0)
                                   else old(cells[y, x])
      {
        var i := 0;
        while i < cells.Length1
          invariant 0 <= i <= cells.Length1
          invariant forall y, x :: 0 <= y < cells.Length0 && 0 <= x < cells.Length1 ==>
                      cells[y, x] == if Before(y, x, j, i) then Cell(old(cells[y, x]).obstructed, false, 0, 0, 0, 0)
                                     else old(cells[y, x])
        {
          cells[j, i] := cells[j, i].(visitedW := 0, visitedE := 0, visitedN := 0, visitedS := 0,
                                      visited := false);
          i := i + 1;
        }
        j := j + 1;
      }
    }

    /** MoveGuard: one step of the walk, as Step describes it. */
    method MoveGuard() returns (validMove: bool)
      requires Valid()
      modifies this, cells
      ensures Valid()
      ensures (State(), validMove) == Step(old(State()))
    {
      ghost var s0 := State();
      guard := guard.(deathLoop := false);
      // the bounds check: a step off the grid is refused
      validMove := match guard.heading
        case North => !(guard.row - 1 < 0)
        case East => !(guard.col + 1 >= cells.Length1)
        case South => !(guard.row + 1 >= cells.Length0)
        case West => !(guard.col - 1 < 0)
        case Unset => true;
      if validMove {
        var from := guard;
        guard := guard.(row := Ahead(from).0, col := Ahead(from).1);
        var cell := cells[guard.row, guard.col];
        if cell.obstructed {
          // back up onto the previous cell and turn clockwise
          guard := from.(heading := TurnRight(from.heading));
        } else {
          cell := Visit(cell, guard.heading);
          cells[guard.row, guard.col] := cell;
          SameGrid(Grid(), s0.grid[guard.row := s0.grid[guard.row][guard.col := cell]]);
          if Looping(cell) {
            guard := guard.(deathLoop := true);
            validMove := false;
          }
        }
      }
    }

    /** `for matrix.MoveGuard() {}` with at most fuel calls: the new state
        is Run's, and stopped says the last call returned false, either by a
        death loop on the guard's cell or in front of the grid's edge. */
    method Walk(fuel: nat) returns (stopped: bool)
      requires Valid()
      modifies this, cells
      ensures Valid()
      ensures (State(), stopped) == Run(old(State()), fuel)
      ensures KeepsObstacles(old(Grid()), Grid())
    {
      ghost var s0 := State();
      RunFacts(s0, fuel);
      ghost var cur := s0;
      stopped := false;
      var left := fuel;
      while left > 0 && !stopped
        invariant Valid()
        invariant cur == State()
        invariant stopped ==> Run(s0, fuel) == (cur, true)
        invariant !stopped ==> Run(s0, fuel) == Run(cur, left)
      {
        ghost var before, leftBefore := cur, left;
        var moved := MoveGuard();
        stopped := !moved;
        left := left - 1;
        cur := State();
        RunAfterStep(before, cur, moved, leftBefore, left);
      }
    }

    /** The counting loop of day6part1. */
    method CountVisited() returns (visitedCells: nat)
      ensures visitedCells == GridVisited(Grid(), cells.Length1, cells.Length0)
    {
      ghost var g := Grid();
      visitedCells := 0;
      var j := 0;
      while j < cells.Length0
        invariant 0 <= j <= cells.Length0
        invariant visitedCells == GridVisited(g, cells.Length1, j)
      {
        var i := 0;
        while i < cells.Length1
          invariant 0 <= i <= cells.Length1
          invariant visitedCells == GridVisited(g, cells.Length1, j) + RowVisited(g[j], i)
        {
          if cells[j, i].visited {
            visitedCells := visitedCells + 1;
          }
          i := i + 1;
        }
        j := j + 1;
      }
    }

    /** day6part1: walk until the guard stops, then count the visited cells
        of the grid Run leaves. None means the walk did not stop within fuel
        steps. A guard that starts on its visited '^' cell always counts at
        least that cell. */
    method Part1(fuel: nat) returns (visitedCells: Option<nat>)
      requires Valid()
      modifies this, cells
      ensures var walk := Run(old(State()), fuel);
              (visitedCells.Some? <==> walk.1) &&
              (visitedCells.Some? ==> visitedCells.value == GridVisited(walk.0.grid, cells.Length1, cells.Length0))
      ensures visitedCells.Some? ==> visitedCells.value <= cells.Length0 * cells.Length1
      ensures visitedCells.Some? && old(GuardOnVisited()) && old(guard).heading != Unset ==>
                visitedCells.value >= 1
    {
      ghost var s0 := State();
      var stopped := Walk(fuel);
      if !stopped {
        return None;
      }
      var n := CountVisited();
      if old(GuardOnVisited()) && old(guard).heading != Unset {
        RunFacts(s0, fuel);
        GridVisitedPositive(Grid(), cells.Length1, cells.Length0, guard.row, guard.col);
      }
      return Some(n);
    }

    /** One trial of day6part2: put the guard back on its start facing
        north and clear the visit marks; if cell (j, i) is free and not the
        start, block it, walk, and unblock it. The results are Trial's for
        the grid before the call; obstacles are as before afterwards. */
    method TryBlock(j: int, i: int, startRow: int, startCol: int, fuel: nat) returns (stopped: bool, trapped: bool)
      requires 0 <= j < cells.Length0 && 0 <= i < cells.Length1
      requires 0 <= startRow < cells.Length0 && 0 <= startCol < cells.Length1
      modifies this, cells
      ensures Valid()
      ensures KeepsObstacles(old(Grid()), Grid())
      ensures (stopped, trapped) == Trial(old(Grid()), (startRow, startCol), (j, i), fuel)
    {
      ghost var g0 := Grid();
      stopped, trapped := true, false;
      guard := Guard(startRow, startCol, North, false);
      CellReset();
      SameGrid(Grid(), Reset(g0));
      if !cells[j, i].obstructed && (guard.row != j || guard.col != i) {
        stopped := BlockedWalk(j, i, fuel);
        trapped := stopped && guard.deathLoop;
      }
    }

    /** The blocked walk of a trial: put an obstacle on the free cell
        (j, i), walk, and take the obstacle away again. */
    method BlockedWalk(j: int, i: int, fuel: nat) returns (stopped: bool)
      requires Valid() && 0 <= j < cells.Length0 && 0 <= i < cells.Length1 && !cells[j, i].obstructed
      modifies this, cells
      ensures Valid()
      ensures KeepsObstacles(old(Grid()), Grid())
      ensures var w := Run(Walker(Block(old(Grid()), (j, i)), old(guard)), fuel);
              stopped == w.1 && guard == w.0.guard
    {
      ghost var g0 := Grid();
      cells[j, i] := cells[j, i].(obstructed := true);
      ghost var blocked := Grid();
      SameGrid(blocked, Block(g0, (j, i)));
      stopped := Walk(fuel);
      ghost var walked := Grid();
      cells[j, i] := cells[j, i].(obstructed := false);
      forall y, x | 0 <= y < cells.Length0 && 0 <= x < cells.Length1
        ensures cells[y, x].obstructed == g0[y][x].obstructed
      {
        if (y, x) != (j, i) {
          assert cells[y, x] == walked[y][x];
          assert blocked[y][x] == g0[y][x];
        }
      }
    }

    /** day6part2: for every cell in row-major order, run TryBlock and
        count the trials that trap the guard. The count is the number of
        Blockers of the grid before the call; None means some trial did not
        stop within fuel steps. Obstacles are as they were. */
    method Part2(fuel: nat) returns (deathLoopCount: Option<nat>)
      requires Valid()
      modifies this, cells
      ensures Valid()
      ensures KeepsObstacles(old(Grid()), Grid())
      ensures var g := old(Grid());
              var start := (old(guard).row, old(guard).col);
              (deathLoopCount.Some? <==>
                 forall y, x :: 0 <= y < |g| && 0 <= x < |g[y]| ==> Trial(g, start, (y, x), fuel).0) &&
              (deathLoopCount.Some? ==> deathLoopCount.value == |Blockers(g, start, fuel)|)
    {
      var startRow, startCol := guard.row, guard.col;
      ghost var g0: seq<seq<Cell>> := Grid();
      ghost var start := (startRow, startCol);
      var count := 0;
      var j := 0;
      while j < cells.Length0
        invariant 0 <= j <= cells.Length0
        invariant Valid()
        invariant KeepsObstacles(g0, Grid())
        invariant count == |BlockersBefore(g0, start, fuel, j, 0)|
        invariant AllStopBefore(g0, start, fuel, j, 0)
      {
        var stopped;
        ghost var line := j;
        stopped, count := TryRow(j, startRow, startCol, fuel, g0, count);
        if !stopped {
          return None;
        }
        j := j + 1;
        BlockersNextRow(g0, cells.Length1, start, fuel, line, j);
        AllStopNextRow(g0, cells.Length1, start, fuel, line, j);
      }
      assert j == |g0|;
      return Some(count);
    }

    /** The trials of one line of day6part2, adding the cells that trap
        the guard to count. stopped is false as soon as a trial does not
        stop within fuel steps. */
    method TryRow(j: int, startRow: int, startCol: int, fuel: nat, ghost g0: seq<seq<Cell>>, count0: nat)
      returns (stopped: bool, count: nat)
      requires 0 <= j < cells.Length0 && 0 <= startRow < cells.Length0 && 0 <= startCol < cells.Length1
      requires Valid()
      requires |g0| == cells.Length0 && Rect(g0, cells.Length1) && KeepsObstacles(g0, Grid())
      requires count0 == |BlockersBefore(g0, (startRow, startCol), fuel, j, 0)|
      requires AllStopBefore(g0, (startRow, startCol), fuel, j, 0)
      modifies this, cells
      ensures Valid() && KeepsObstacles(g0, Grid())
      ensures stopped ==>
                count == |BlockersBefore(g0, (startRow, startCol), fuel, j, cells.Length1)| &&
                AllStopBefore(g0, (startRow, startCol), fuel, j, cells.Length1)
      ensures !stopped ==> exists x :: 0 <= x < cells.Length1 && !Trial(g0, (startRow, startCol), (j, x), fuel).0
    {
      ghost var start := (startRow, startCol);
      count := count0;
      var i := 0;
      while i < cells.Length1
        invariant 0 <= i <= cells.Length1
        invariant Valid()
        invariant KeepsObstacles(g0, Grid())
        invariant count == |BlockersBefore(g0, start, fuel, j, i)|
        invariant AllStopBefore(g0, start, fuel, j, i)
      {
        ghost var g, here := Grid(), i;
        var trapped;
        stopped, trapped := TryBlock(j, i, startRow, startCol, fuel);
        TrialKeepsObstaclesOnly(g0, g, start, (j, i), fuel);
        if !stopped {
          assert !Trial(g0, (startRow, startCol), (j, here), fuel).0;
          return;
        }
        if trapped {
          count := count + 1;
        }
        i := i + 1;
        BlockersNext(g0, start, fuel, j, here, i);
        AllStopNext(g0, start, fuel, j, here, i);
      }
      assert i == cells.Length1;
      stopped := true;
    }
  }

  /** Day6: part 1 on a matrix built from the input, then part 2 on a fresh
      one. Both start from the grid NewMatrix builds and the guard it
      places: part 1 counts the visited cells after Run, part 2 the
      Blockers. Part 1 counts at most every cell, and at least the start
      when the input has a '^'. */
  method Day6(input: string, fuel: nat) returns (visitedCells: Option<nat>, deathLoopCount: Option<nat>)
    requires RowsCoverWidth(Split(input, "\n")) && |Split(input, "\n")[0]| > 0
    ensures var rows := Split(input, "\n");
            var w := |rows[0]|;
            var g := InitialGrid(rows, w);
            forall s :: IsStart(rows, w, s) ==>
              var walk := Run(Walker(g, s), fuel);
              (visitedCells.Some? <==> walk.1) &&
              (visitedCells.Some? ==> visitedCells.value == GridVisited(walk.0.grid, w, |rows|)) &&
              (deathLoopCount.Some? <==>
                 forall y, x :: 0 <= y < |rows| && 0 <= x < w ==> Trial(g, (s.row, s.col), (y, x), fuel).0) &&
              (deathLoopCount.Some? ==> deathLoopCount.value == |Blockers(g, (s.row, s.col), fuel)|)
    ensures var rows := Split(input, "\n");
            visitedCells.Some? ==>
              visitedCells.value <= |rows| * |rows[0]| &&
              (HasCaret(rows, |rows[0]|) ==> visitedCells.value >= 1)
  {
    var matrix := new Matrix(input);
    ghost var rows := matrix.rows;
    ghost var w := matrix.cells.Length1;
    ghost var first := matrix.guard;
    assert IsStart(rows, w, first);
    visitedCells := matrix.Part1(fuel);
    matrix := new Matrix(input);
    assert matrix.guard == first by {
      StartUnique(rows, w, matrix.guard, first);
    }
    deathLoopCount := matrix.Part2(fuel);
    forall s | IsStart(rows, w, s)
      ensures s == first
    {
      StartUnique(rows, w, s, first);
    }
  }
}
