/** Day 10: a topographic map of single-digit elevations. A hiking trail
    starts at elevation 0, climbs exactly one per orthogonal step and ends at
    elevation 9. The search records one (head, tail) trail per climbing path;
    part 1 scores the distinct (head, tail) pairs, part 2 every recorded
    trail. */
module Day10 {
  import opened GoText

  datatype Position = Position(row: int, col: int)

  datatype Trail = Trail(headRow: int, headCol: int, tailRow: int, tailCol: int)

  // ------------------------------------------------------------------ map

  /** strconv.Atoi of a one-character string, its error ignored. */
  function Elevation(ch: char): (e: int)
    ensures 0 <= e <= 9
    ensures IsDigit(ch) ==> e == (ch as int) - ('0' as int)
    ensures !IsDigit(ch) ==> e == 0
  {
    assert [ch][1..] == [] && [ch][..0] == [];
    assert IsDigit(ch) ==> AllDigits([ch]) && DigitsValue([ch]) == DigitValue(ch);
    AtoiOrZero([ch])
  }

  /** The elevation grid built from the input lines: every row as wide as
      the first line, short lines padded with elevation 0. */
  function GameMap(inputLines: seq<string>): (g: seq<seq<int>>)
    requires |inputLines| > 0
  {
    seq(|inputLines|, i requires 0 <= i < |inputLines| =>
      seq(|inputLines[0]|, j requires 0 <= j < |inputLines[0]| =>
        if j < |inputLines[i]| then Elevation(inputLines[i][j]) else 0))
  }

  /** A non-empty grid of equally wide rows with elevations 0 to 9. */
  predicate IsMap(g: seq<seq<int>>)
  {
    |g| > 0 &&
    (forall i :: 0 <= i < |g| ==> |g[i]| == |g[0]|) &&
    (forall i, j :: 0 <= i < |g| && 0 <= j < |g[i]| ==> 0 <= g[i][j] <= 9)
  }

  predicate InMap(g: seq<seq<int>>, p: Position)
    requires |g| > 0
  {
    0 <= p.row < |g| && 0 <= p.col < |g[0]|
  }

  function ElevAt(g: seq<seq<int>>, p: Position): (e: int)
    requires IsMap(g) && InMap(g, p)
    ensures 0 <= e <= 9
  {
    g[p.row][p.col]
  }

  /** The grid loop of Day10: one row per line, one elevation per character
      of the line. A line longer than the first one would index past the end
      of its row. */
  method BuildMap(inputLines: seq<string>) returns (gameMap: seq<seq<int>>)
    requires |inputLines| > 0
    requires forall i :: 0 <= i < |inputLines| ==> |inputLines[i]| <= |inputLines[0]|
    ensures gameMap == GameMap(inputLines)
    ensures IsMap(gameMap) && |gameMap| == |inputLines| && |gameMap[0]| == |inputLines[0]|
  {
    var rows, cols := |inputLines|, |inputLines[0]|;
    gameMap := [];
    var i := 0;
    while i < rows
      invariant 0 <= i <= rows && |gameMap| == i
      invariant forall k :: 0 <= k < i ==> gameMap[k] == GameMap(inputLines)[k]
    {
      var row := seq(cols, _ => 0);
      var j := 0;
      while j < |inputLines[i]|
        invariant 0 <= j <= |inputLines[i]| && |row| == cols
        invariant forall x :: 0 <= x < cols ==> row[x] == if x < j then Elevation(inputLines[i][x]) else 0
      {
        row := row[j := Elevation(inputLines[i][j])];
        j := j + 1;
      }
      assert row == GameMap(inputLines)[i];
      gameMap := gameMap + [row];
      i := i + 1;
    }
    assert gameMap == GameMap(inputLines);
  }

  // ---------------------------------------------------------- trail heads

  /** Row-major order of positions. */
  predicate Earlier(p: Position, q: Position)
  {
    p.row < q.row || (p.row == q.row && p.col < q.col)
  }

  predicate RowMajor(ps: seq<Position>)
  {
    forall a, b :: 0 <= a < b < |ps| ==> Earlier(ps[a], ps[b])
  }

  /** The elevation-0 cells among the first n of row r. */
  function RowZeros(row: seq<int>, r: int, n: nat): (ps: seq<Position>)
    requires n <= |row|
    ensures forall k :: 0 <= k < |ps| ==> ps[k].row == r && 0 <= ps[k].col < n
    ensures RowMajor(ps)
  {
    if n == 0 then []
    else RowZeros(row, r, n - 1) + (if row[n - 1] == 0 then [Position(r, n - 1)] else [])
  }

  /** The elevation-0 cells of the first m rows, in row-major order. */
  function ZeroCells(g: seq<seq<int>>, m: nat): (ps: seq<Position>)
    requires m <= |g|
    ensures forall k :: 0 <= k < |ps| ==> 0 <= ps[k].row < m && 0 <= ps[k].col < |g[ps[k].row]|
    ensures RowMajor(ps)
  {
    if m == 0 then []
    else ZeroCells(g, m - 1) + RowZeros(g[m - 1], m - 1, |g[m - 1]|)
  }

  lemma {:induction false} RowZerosMeaning(row: seq<int>, r: int, n: nat, p: Position)
    requires n <= |row|
    ensures p in RowZeros(row, r, n) <==> p.row == r && 0 <= p.col < n && row[p.col] == 0
  {
    if n > 0 {
      RowZerosMeaning(row, r, n - 1, p);
    }
  }

  /** The trail heads are exactly the elevation-0 cells. */
  lemma {:induction false} ZeroCellsMeaning(g: seq<seq<int>>, m: nat, p: Position)
    requires m <= |g|
    ensures p in ZeroCells(g, m) <==> 0 <= p.row < m && 0 <= p.col < |g[p.row]| && g[p.row][p.col] == 0
  {
    if m > 0 {
      ZeroCellsMeaning(g, m - 1, p);
      RowZerosMeaning(g[m - 1], m - 1, |g[m - 1]|, p);
    }
  }

  /** The trail-head scan of Day10. */
  method FindTrailHeads(gameMap: seq<seq<int>>) returns (trailHeads: seq<Position>)
    requires IsMap(gameMap)
    ensures trailHeads == ZeroCells(gameMap, |gameMap|)
    ensures RowMajor(trailHeads) && NoDuplicates(trailHeads)
    ensures forall p :: p in trailHeads ==> InMap(gameMap, p) && ElevAt(gameMap, p) == 0
  {
    trailHeads := [];
    var rows, cols := |gameMap|, |gameMap[0]|;
    var i := 0;
    while i < rows
      invariant 0 <= i <= rows
      invariant trailHeads == ZeroCells(gameMap, i)
    {
      var j := 0;
      while j < cols
        invariant 0 <= j <= cols
        invariant trailHeads == ZeroCells(gameMap, i) + RowZeros(gameMap[i], i, j)
      {
        if gameMap[i][j] == 0 {
          trailHeads := trailHeads + [Position(i, j)];
        }
        j := j + 1;
      }
      i := i + 1;
    }
    forall p | p in trailHeads
      ensures InMap(gameMap, p) && ElevAt(gameMap, p) == 0
    {
      ZeroCellsMeaning(gameMap, rows, p);
    }
  }

  // --------------------------------------------------------------- steps

  /** Up, down, left, right. */
  function Candidates(p: Position): seq<Position>
  {
    [Position(p.row - 1, p.col), Position(p.row + 1, p.col), Position(p.row, p.col - 1), Position(p.row, p.col + 1)]
  }

  function Abs(x: int): nat
  {
    if x < 0 then -x else x
  }

  /** One orthogonal step apart. */
  predicate Adjacent(p: Position, q: Position)
  {
    Abs(p.row - q.row) + Abs(p.col - q.col) == 1
  }

  /** day10GetPossibleSteps: the in-grid neighbours, in the order up, down,
      left, right. */
  function PossibleSteps(g: seq<seq<int>>, p: Position): (steps: seq<Position>)
    requires |g| > 0
    ensures |steps| <= 4
    ensures forall k :: 0 <= k < |steps| ==> InMap(g, steps[k]) && Adjacent(p, steps[k])
  {
    var c := Candidates(p);
    (if InMap(g, c[0]) then [c[0]] else []) + (if InMap(g, c[1]) then [c[1]] else []) +
    (if InMap(g, c[2]) then [c[2]] else []) + (if InMap(g, c[3]) then [c[3]] else [])
  }

  /** Every in-grid neighbour is among the possible steps. */
  lemma PossibleStepsComplete(g: seq<seq<int>>, p: Position, q: Position)
    requires |g| > 0 && InMap(g, q) && Adjacent(p, q)
    ensures q in PossibleSteps(g, p)
  {
    var c := Candidates(p);
    if q.row == p.row - 1 { assert q == c[0]; }
    else if q.row == p.row + 1 { assert q == c[1]; }
    else if q.col == p.col - 1 { assert q == c[2]; }
    else { assert q == c[3]; }
  }

  // -------------------------------------------------------------- trails

  /** Every position of steps is in the grid. */
  predicate AllInMap(g: seq<seq<int>>, steps: seq<Position>)
    requires |g| > 0
  {
    forall k :: 0 <= k < |steps| ==> InMap(g, steps[k])
  }

  /** What one step q out of p records: the trail to q when q completes the
      climb, the trails from q when it continues it, nothing otherwise. */
  function Climb(g: seq<seq<int>>, p: Position, q: Position, start: Position): seq<Trail>
    requires IsMap(g) && InMap(g, p) && InMap(g, q)
    decreases 10 - ElevAt(g, p), 0, 0
  {
    if ElevAt(g, q) != ElevAt(g, p) + 1 then []
    else if ElevAt(g, q) == 9 then [Trail(start.row, start.col, q.row, q.col)]
    else TrailsFrom(g, q, start)
  }

  /** The trails recorded by the first n turns of the loop over steps. */
  function TrailsFromSteps(g: seq<seq<int>>, p: Position, steps: seq<Position>, n: nat, start: Position): seq<Trail>
    requires IsMap(g) && InMap(g, p) && AllInMap(g, steps) && n <= |steps|
    decreases 10 - ElevAt(g, p), 1, n
  {
    if n == 0 then []
    else TrailsFromSteps(g, p, steps, n - 1, start) + Climb(g, p, steps[n - 1], start)
  }

  /** The trails that day10TakeNextStep records from p for trail head start. */
  function TrailsFrom(g: seq<seq<int>>, p: Position, start: Position): seq<Trail>
    requires IsMap(g) && InMap(g, p)
    decreases 10 - ElevAt(g, p), 2, 0
  {
    var steps := PossibleSteps(g, p);
    TrailsFromSteps(g, p, steps, |steps|, start)
  }

  /** The value of foundTrail after n turns of the loop over steps: each
      climbing step overwrites it, so it reports the outcome of the last
      climbing step. */
  function FoundFromSteps(g: seq<seq<int>>, p: Position, steps: seq<Position>, n: nat): bool
    requires IsMap(g) && InMap(g, p) && AllInMap(g, steps) && n <= |steps|
    decreases 10 - ElevAt(g, p), 0, n
  {
    if n == 0 then false
    else
      var q := steps[n - 1];
      if ElevAt(g, q) != ElevAt(g, p) + 1 then FoundFromSteps(g, p, steps, n - 1)
      else if ElevAt(g, q) == 9 then true
      else FoundFrom(g, q)
  }

  function FoundFrom(g: seq<seq<int>>, p: Position): bool
    requires IsMap(g) && InMap(g, p)
    decreases 10 - ElevAt(g, p), 1, 0
  {
    var steps := PossibleSteps(g, p);
    FoundFromSteps(g, p, steps, |steps|)
  }

  /** Every trail recorded from p is headed at start and ends on an
      elevation-9 cell. */
  lemma {:induction false} TrailsHeaded(g: seq<seq<int>>, p: Position, steps: seq<Position>, n: nat, start: Position, t: Trail)
    requires IsMap(g) && InMap(g, p) && AllInMap(g, steps) && n <= |steps|
    requires t in TrailsFromSteps(g, p, steps, n, start)
    ensures t.headRow == start.row && t.headCol == start.col
    ensures InMap(g, Position(t.tailRow, t.tailCol)) && ElevAt(g, Position(t.tailRow, t.tailCol)) == 9
    decreases 10 - ElevAt(g, p), n
  {
    var q := steps[n - 1];
    if t in TrailsFromSteps(g, p, steps, n - 1, start) {
      TrailsHeaded(g, p, steps, n - 1, start, t);
    } else {
      assert t in Climb(g, p, q, start);
      assert ElevAt(g, q) == ElevAt(g, p) + 1;
      if ElevAt(g, q) != 9 {
        var next := PossibleSteps(g, q);
        assert Climb(g, p, q, start) == TrailsFrom(g, q, start);
        TrailsHeaded(g, q, next, |next|, start, t);
      }
    }
  }

  /** A reported success always comes with a recorded trail. */
  lemma {:induction false} FoundMeansTrail(g: seq<seq<int>>, p: Position, steps: seq<Position>, n: nat, start: Position)
    requires IsMap(g) && InMap(g, p) && AllInMap(g, steps) && n <= |steps|
    requires FoundFromSteps(g, p, steps, n)
    ensures |TrailsFromSteps(g, p, steps, n, start)| > 0
    decreases 10 - ElevAt(g, p), n
  {
    var q := steps[n - 1];
    if ElevAt(g, q) != ElevAt(g, p) + 1 {
      FoundMeansTrail(g, p, steps, n - 1, start);
    } else if ElevAt(g, q) != 9 {
      var next := PossibleSteps(g, q);
      FoundMeansTrail(g, q, next, |next|, start);
      assert Climb(g, p, q, start) == TrailsFromSteps(g, q, next, |next|, start);
    }
  }

  /** A climb: a path of in-grid cells, each one step from the previous and
      exactly one higher. */
  ghost predicate HikingPath(g: seq<seq<int>>, path: seq<Position>)
    requires IsMap(g)
  {
    |path| >= 1 &&
    (forall k :: 0 <= k < |path| ==> InMap(g, path[k])) &&
    (forall k :: 0 < k < |path| ==> Adjacent(path[k - 1], path[k]) && ElevAt(g, path[k]) == ElevAt(g, path[k - 1]) + 1)
  }

  /** Along a climb the elevation rises by one per step. */
  lemma {:induction false} ClimbHeights(g: seq<seq<int>>, path: seq<Position>, k: nat)
    requires IsMap(g) && HikingPath(g, path) && k < |path|
    ensures ElevAt(g, path[k]) == ElevAt(g, path[0]) + k
  {
    if k > 0 {
      ClimbHeights(g, path, k - 1);
    }
  }

  /** A climb can be extended downwards by a neighbour one lower. */
  lemma ExtendClimb(g: seq<seq<int>>, p: Position, rest: seq<Position>)
    requires IsMap(g) && InMap(g, p) && HikingPath(g, rest)
    requires Adjacent(p, rest[0]) && ElevAt(g, rest[0]) == ElevAt(g, p) + 1
    ensures HikingPath(g, [p] + rest)
  {
    var path := [p] + rest;
    assert forall k :: 0 < k < |path| ==> path[k] == rest[k - 1];
  }

  /** path climbs from p to tail in at least one step. */
  ghost predicate ClimbTo(g: seq<seq<int>>, path: seq<Position>, p: Position, tail: Position)
    requires IsMap(g)
  {
    HikingPath(g, path) && |path| >= 2 && path[0] == p && path[|path| - 1] == tail
  }

  /** Every trail recorded from p ends a climb out of p. */
  lemma {:induction false} TrailsSound(g: seq<seq<int>>, p: Position, steps: seq<Position>, n: nat, start: Position, t: Trail)
    requires IsMap(g) && InMap(g, p) && AllInMap(g, steps) && n <= |steps|
    requires forall k :: 0 <= k < |steps| ==> Adjacent(p, steps[k])
    requires t in TrailsFromSteps(g, p, steps, n, start)
    ensures exists path :: ClimbTo(g, path, p, Position(t.tailRow, t.tailCol))
    decreases 10 - ElevAt(g, p), n
  {
    var q := steps[n - 1];
    var tail := Position(t.tailRow, t.tailCol);
    if t in TrailsFromSteps(g, p, steps, n - 1, start) {
      TrailsSound(g, p, steps, n - 1, start, t);
    } else {
      assert t in Climb(g, p, q, start);
      assert ElevAt(g, q) == ElevAt(g, p) + 1 && Adjacent(p, q);
      if ElevAt(g, q) == 9 {
        var path := [p, q];
        assert t == Trail(start.row, start.col, q.row, q.col);
        assert HikingPath(g, path);
        assert ClimbTo(g, path, p, tail);
      } else {
        var next := PossibleSteps(g, q);
        assert Climb(g, p, q, start) == TrailsFrom(g, q, start);
        TrailsSound(g, q, next, |next|, start, t);
        var rest :| ClimbTo(g, rest, q, tail);
        ExtendClimb(g, p, rest);
        assert ([p] + rest)[|rest|] == rest[|rest| - 1];
        assert ClimbTo(g, [p] + rest, p, tail);
      }
    }
  }

  /** Whatever turn k of the step loop records is recorded by the loop. */
  lemma {:induction false} ClimbRecorded(g: seq<seq<int>>, p: Position, steps: seq<Position>, n: nat, k: nat, start: Position)
    requires IsMap(g) && InMap(g, p) && AllInMap(g, steps) && n <= |steps|
    requires k < n
    ensures forall t :: t in Climb(g, p, steps[k], start) ==> t in TrailsFromSteps(g, p, steps, n, start)
    decreases n
  {
    if k < n - 1 {
      ClimbRecorded(g, p, steps, n - 1, k, start);
    }
  }

  /** Every climb from p to an elevation-9 cell is recorded. */
  lemma {:induction false} TrailsComplete(g: seq<seq<int>>, path: seq<Position>, start: Position)
    requires IsMap(g) && HikingPath(g, path) && |path| >= 2
    requires ElevAt(g, path[|path| - 1]) == 9
    ensures Trail(start.row, start.col, path[|path| - 1].row, path[|path| - 1].col) in TrailsFrom(g, path[0], start)
    decreases |path|
  {
    var p, q := path[0], path[1];
    var steps := PossibleSteps(g, p);
    PossibleStepsComplete(g, p, q);
    var k :| 0 <= k < |steps| && steps[k] == q;
    ClimbRecorded(g, p, steps, |steps|, k, start);
    assert ElevAt(g, q) == ElevAt(g, p) + 1;
    if ElevAt(g, q) == 9 {
      ClimbHeights(g, path, |path| - 1);
      ClimbHeights(g, path, 1);
      assert path[|path| - 1] == q;
    } else {
      var rest := path[1..];
      assert forall i :: 0 < i < |rest| ==> rest[i - 1] == path[i] && rest[i] == path[i + 1];
      assert HikingPath(g, rest);
      TrailsComplete(g, rest, start);
      assert Climb(g, p, q, start) == TrailsFrom(g, q, start);
    }
  }

  // -------------------------------------------------------------- climbs

  /** A climb out of p that ends on an elevation-9 cell. */
  ghost predicate IsClimb(g: seq<seq<int>>, p: Position, path: seq<Position>)
    requires IsMap(g)
  {
    HikingPath(g, path) && |path| >= 2 && path[0] == p && ElevAt(g, path[|path| - 1]) == 9
  }

  /** Each path with p put in front. */
  function Prefixed(p: Position, paths: seq<seq<Position>>): (r: seq<seq<Position>>)
    ensures |r| == |paths|
    ensures forall i :: 0 <= i < |r| ==> r[i] == [p] + paths[i]
  {
    seq(|paths|, i requires 0 <= i < |paths| => [p] + paths[i])
  }

  /** The climbs that one step q out of p leads to, in the order the search
      meets them. */
  ghost function ClimbsVia(g: seq<seq<int>>, p: Position, q: Position): seq<seq<Position>>
    requires IsMap(g) && InMap(g, p) && InMap(g, q)
    decreases 10 - ElevAt(g, p), 0, 0
  {
    if ElevAt(g, q) != ElevAt(g, p) + 1 then []
    else if ElevAt(g, q) == 9 then [[p, q]]
    else Prefixed(p, Climbs(g, q))
  }

  /** The climbs met by the first n turns of the loop over steps. */
  ghost function ClimbsFromSteps(g: seq<seq<int>>, p: Position, steps: seq<Position>, n: nat): seq<seq<Position>>
    requires IsMap(g) && InMap(g, p) && AllInMap(g, steps) && n <= |steps|
    decreases 10 - ElevAt(g, p), 1, n
  {
    if n == 0 then []
    else ClimbsFromSteps(g, p, steps, n - 1) + ClimbsVia(g, p, steps[n - 1])
  }

  /** The climbs out of p, in the order the search out of p meets them. */
  ghost function Climbs(g: seq<seq<int>>, p: Position): seq<seq<Position>>
    requires IsMap(g) && InMap(g, p)
    decreases 10 - ElevAt(g, p), 2, 0
  {
    var steps := PossibleSteps(g, p);
    ClimbsFromSteps(g, p, steps, |steps|)
  }

  /** The trail recorded for a climb: from start to where the climb ends. */
  function TrailTo(start: Position, path: seq<Position>): Trail
    requires |path| > 0
  {
    Trail(start.row, start.col, path[|path| - 1].row, path[|path| - 1].col)
  }

  /** trails holds, in order, the trail of each of the climbs. */
  ghost predicate Tracks(trails: seq<Trail>, climbs: seq<seq<Position>>, start: Position)
  {
    |trails| == |climbs| &&
    forall i :: 0 <= i < |climbs| ==> |climbs[i]| > 0 && trails[i] == TrailTo(start, climbs[i])
  }

  lemma TracksAppend(a: seq<Trail>, b: seq<Trail>, c: seq<seq<Position>>, d: seq<seq<Position>>, start: Position)
    requires Tracks(a, c, start) && Tracks(b, d, start)
    ensures Tracks(a + b, c + d, start)
  {
    forall i | |a| <= i < |a| + |b|
      ensures (c + d)[i] == d[i - |a|] && (a + b)[i] == b[i - |a|]
    {
    }
  }

  lemma TracksPrefixed(trails: seq<Trail>, climbs: seq<seq<Position>>, p: Position, start: Position)
    requires Tracks(trails, climbs, start)
    ensures Tracks(trails, Prefixed(p, climbs), start)
  {
    var r := Prefixed(p, climbs);
    forall i | 0 <= i < |r|
      ensures r[i][|r[i]| - 1] == climbs[i][|climbs[i]| - 1]
    {
    }
  }

  /** The search records one trail per climb it meets, ending where the
      climb ends. */
  lemma {:induction false} TrailsTrackClimbs(g: seq<seq<int>>, p: Position, steps: seq<Position>, n: nat, start: Position)
    requires IsMap(g) && InMap(g, p) && AllInMap(g, steps) && n <= |steps|
    ensures Tracks(TrailsFromSteps(g, p, steps, n, start), ClimbsFromSteps(g, p, steps, n), start)
    decreases 10 - ElevAt(g, p), n
  {
    if n > 0 {
      var q := steps[n - 1];
      TrailsTrackClimbs(g, p, steps, n - 1, start);
      if ElevAt(g, q) == ElevAt(g, p) + 1 && ElevAt(g, q) != 9 {
        var next := PossibleSteps(g, q);
        TrailsTrackClimbs(g, q, next, |next|, start);
        TracksPrefixed(TrailsFrom(g, q, start), Climbs(g, q), p, start);
      }
      TracksAppend(TrailsFromSteps(g, p, steps, n - 1, start), Climb(g, p, q, start),
                   ClimbsFromSteps(g, p, steps, n - 1), ClimbsVia(g, p, q), start);
    }
  }

  /** Every climb the search meets from p is a climb out of p to an
      elevation-9 cell. */
  lemma {:induction false} ClimbsSound(g: seq<seq<int>>, p: Position, steps: seq<Position>, n: nat, path: seq<Position>)
    requires IsMap(g) && InMap(g, p) && AllInMap(g, steps) && n <= |steps|
    requires forall k :: 0 <= k < |steps| ==> Adjacent(p, steps[k])
    requires path in ClimbsFromSteps(g, p, steps, n)
    ensures IsClimb(g, p, path)
    decreases 10 - ElevAt(g, p), 1, n
  {
    if path in ClimbsFromSteps(g, p, steps, n - 1) {
      ClimbsSound(g, p, steps, n - 1, path);
    } else {
      ViaSound(g, p, steps[n - 1], path);
    }
  }

  /** One step's climbs are climbs out of p. */
  lemma {:induction false} ViaSound(g: seq<seq<int>>, p: Position, q: Position, path: seq<Position>)
    requires IsMap(g) && InMap(g, p) && InMap(g, q) && Adjacent(p, q)
    requires path in ClimbsVia(g, p, q)
    ensures IsClimb(g, p, path)
    decreases 10 - ElevAt(g, p), 0, 0
  {
    if ElevAt(g, q) == 9 {
      assert path == [p, q];
      assert HikingPath(g, path);
    } else {
      var i :| 0 <= i < |Climbs(g, q)| && path == [p] + Climbs(g, q)[i];
      var rest := Climbs(g, q)[i];
      var next := PossibleSteps(g, q);
      ClimbsSound(g, q, next, |next|, rest);
      ClimbDown(g, p, rest);
    }
  }

  /** A climb out of p, one step from the cell one lower, splits into that
      step and a climb out of the cell above it, unless that cell is
      already at elevation 9. */
  lemma ClimbUp(g: seq<seq<int>>, p: Position, path: seq<Position>)
    requires IsMap(g) && IsClimb(g, p, path)
    ensures InMap(g, path[1]) && Adjacent(p, path[1]) && ElevAt(g, path[1]) == ElevAt(g, p) + 1
    ensures ElevAt(g, path[1]) == 9 ==> path == [p, path[1]]
    ensures ElevAt(g, path[1]) != 9 ==> path == [p] + path[1..] && IsClimb(g, path[1], path[1..])
  {
    var q := path[1];
    if ElevAt(g, q) == 9 {
      ClimbHeights(g, path, |path| - 1);
      ClimbHeights(g, path, 1);
      assert path == [p, q];
    } else {
      var rest := path[1..];
      assert forall i :: 0 < i < |rest| ==> rest[i - 1] == path[i] && rest[i] == path[i + 1];
      assert HikingPath(g, rest);
    }
  }

  /** A climb out of q extends to a climb out of an adjacent cell one lower. */
  lemma ClimbDown(g: seq<seq<int>>, p: Position, rest: seq<Position>)
    requires IsMap(g) && InMap(g, p) && |rest| > 0 && IsClimb(g, rest[0], rest)
    requires Adjacent(p, rest[0]) && ElevAt(g, rest[0]) == ElevAt(g, p) + 1
    ensures IsClimb(g, p, [p] + rest)
  {
    ExtendClimb(g, p, rest);
    assert ([p] + rest)[|rest|] == rest[|rest| - 1];
  }

  /** Whatever turn k of the step loop meets is met by the loop. */
  lemma {:induction false} ClimbsMet(g: seq<seq<int>>, p: Position, steps: seq<Position>, n: nat, k: nat, path: seq<Position>)
    requires IsMap(g) && InMap(g, p) && AllInMap(g, steps) && k < n <= |steps|
    requires path in ClimbsVia(g, p, steps[k])
    ensures path in ClimbsFromSteps(g, p, steps, n)
    decreases n
  {
    if k < n - 1 {
      ClimbsMet(g, p, steps, n - 1, k, path);
    }
  }

  /** Every climb out of p to an elevation-9 cell is met by the search. */
  lemma {:induction false} ClimbsComplete(g: seq<seq<int>>, p: Position, path: seq<Position>)
    requires IsMap(g) && InMap(g, p) && IsClimb(g, p, path)
    ensures path in Climbs(g, p)
    decreases |path|
  {
    var q := path[1];
    var steps := PossibleSteps(g, p);
    ClimbUp(g, p, path);
    PossibleStepsComplete(g, p, q);
    var k :| 0 <= k < |steps| && steps[k] == q;
    if ElevAt(g, q) != 9 {
      var rest := path[1..];
      ClimbsComplete(g, q, rest);
      PrefixedMember(p, Climbs(g, q), rest);
    }
    ClimbsMet(g, p, steps, |steps|, k, path);
  }

  lemma PrefixedMember(p: Position, paths: seq<seq<Position>>, rest: seq<Position>)
    requires rest in paths
    ensures [p] + rest in Prefixed(p, paths)
  {
    var i :| 0 <= i < |paths| && paths[i] == rest;
    assert Prefixed(p, paths)[i] == [p] + rest;
  }

  /** The four neighbours are distinct positions, so the steps are too. */
  lemma PossibleStepsDistinct(g: seq<seq<int>>, p: Position)
    requires |g| > 0
    ensures NoDuplicates(PossibleSteps(g, p))
  {
  }

  lemma DistinctAppend<T>(a: seq<T>, b: seq<T>)
    requires NoDuplicates(a) && NoDuplicates(b)
    requires forall x :: x in a ==> x !in b
    ensures NoDuplicates(a + b)
  {
    forall i, j | 0 <= i < j < |a + b|
      ensures (a + b)[i] != (a + b)[j]
    {
      if i < |a| && |a| <= j {
        assert (a + b)[i] in a && (a + b)[j] in b;
      }
    }
  }

  lemma PrefixedDistinct(p: Position, paths: seq<seq<Position>>)
    requires NoDuplicates(paths)
    ensures NoDuplicates(Prefixed(p, paths))
  {
    var r := Prefixed(p, paths);
    forall i, j | 0 <= i < j < |r|
      ensures r[i] != r[j]
    {
      assert r[i][1..] == paths[i] && r[j][1..] == paths[j];
    }
  }

  /** The search meets no climb twice: climbs through different first
      steps differ in their second cell. */
  lemma {:induction false} ClimbsDistinct(g: seq<seq<int>>, p: Position, steps: seq<Position>, n: nat)
    requires IsMap(g) && InMap(g, p) && AllInMap(g, steps) && n <= |steps| && NoDuplicates(steps)
    ensures NoDuplicates(ClimbsFromSteps(g, p, steps, n))
    ensures forall path :: path in ClimbsFromSteps(g, p, steps, n) ==> |path| >= 2 && path[1] in steps[..n]
    decreases 10 - ElevAt(g, p), 1, n
  {
    if n > 0 {
      var q := steps[n - 1];
      ClimbsDistinct(g, p, steps, n - 1);
      ViaDistinct(g, p, q);
      assert q !in steps[..n - 1];
      DistinctAppend(ClimbsFromSteps(g, p, steps, n - 1), ClimbsVia(g, p, q));
      assert steps[..n] == steps[..n - 1] + [q];
    }
  }

  /** One step's climbs are distinct and all go through that step. */
  lemma {:induction false} ViaDistinct(g: seq<seq<int>>, p: Position, q: Position)
    requires IsMap(g) && InMap(g, p) && InMap(g, q)
    ensures NoDuplicates(ClimbsVia(g, p, q))
    ensures forall path :: path in ClimbsVia(g, p, q) ==> |path| >= 2 && path[1] == q
    decreases 10 - ElevAt(g, p), 0, 0
  {
    if ElevAt(g, q) == ElevAt(g, p) + 1 && ElevAt(g, q) != 9 {
      var next := PossibleSteps(g, q);
      PossibleStepsDistinct(g, q);
      ClimbsDistinct(g, q, next, |next|);
      PrefixedDistinct(p, Climbs(g, q));
      forall path | path in ClimbsVia(g, p, q)
        ensures |path| >= 2 && path[1] == q
      {
        var i :| 0 <= i < |Climbs(g, q)| && path == [p] + Climbs(g, q)[i];
        ClimbsSound(g, q, next, |next|, Climbs(g, q)[i]);
      }
    }
  }

  /** The trails recorded from p correspond one to one, in order, to the
      climbs out of p to an elevation-9 cell: the search meets each such
      climb exactly once and records the trail to where it ends. */
  lemma TrailsPerClimb(g: seq<seq<int>>, p: Position, start: Position)
    requires IsMap(g) && InMap(g, p)
    ensures Tracks(TrailsFrom(g, p, start), Climbs(g, p), start)
    ensures NoDuplicates(Climbs(g, p))
    ensures forall path :: path in Climbs(g, p) <==> IsClimb(g, p, path)
  {
    var steps := PossibleSteps(g, p);
    TrailsTrackClimbs(g, p, steps, |steps|, start);
    PossibleStepsDistinct(g, p);
    ClimbsDistinct(g, p, steps, |steps|);
    forall path
      ensures path in Climbs(g, p) <==> IsClimb(g, p, path)
    {
      if path in Climbs(g, p) {
        ClimbsSound(g, p, steps, |steps|, path);
      }
      if IsClimb(g, p, path) {
        ClimbsComplete(g, p, path);
      }
    }
  }

  /** The trails of the first n heads, head after head. */
  function AllTrails(g: seq<seq<int>>, heads: seq<Position>, n: nat): seq<Trail>
    requires IsMap(g) && AllInMap(g, heads) && n <= |heads|
  {
    if n == 0 then []
    else AllTrails(g, heads, n - 1) + TrailsFrom(g, heads[n - 1], heads[n - 1])
  }

  /** One head's search extends the log by that head's trails. */
  lemma SearchStep(start: seq<Trail>, g: seq<seq<int>>, heads: seq<Position>, i: nat,
                   before: seq<Trail>, after: seq<Trail>)
    requires IsMap(g) && AllInMap(g, heads) && i < |heads|
    requires before == start + AllTrails(g, heads, i)
    requires after == before + TrailsFrom(g, heads[i], heads[i])
    ensures after == start + AllTrails(g, heads, i + 1)
  {
    AppendAssoc(start, AllTrails(g, heads, i), TrailsFrom(g, heads[i], heads[i]));
  }

  /** Every trail of the search is headed at one of the heads. */
  lemma {:induction false} AllTrailsHeaded(g: seq<seq<int>>, heads: seq<Position>, n: nat, t: Trail)
    requires IsMap(g) && AllInMap(g, heads) && n <= |heads|
    requires t in AllTrails(g, heads, n)
    ensures Position(t.headRow, t.headCol) in heads
    decreases n
  {
    var h := heads[n - 1];
    if t in AllTrails(g, heads, n - 1) {
      assert 0 <= n - 1 < n;
      AllTrailsHeaded(g, heads, n - 1, t);
    } else {
      var steps := PossibleSteps(g, h);
      TrailsHeaded(g, h, steps, |steps|, h, t);
    }
  }

  /** The climbs of the first n heads, head after head. */
  ghost function AllClimbs(g: seq<seq<int>>, heads: seq<Position>, n: nat): seq<seq<Position>>
    requires IsMap(g) && AllInMap(g, heads) && n <= |heads|
  {
    if n == 0 then []
    else AllClimbs(g, heads, n - 1) + Climbs(g, heads[n - 1])
  }

  /** The search records exactly one trail per climb of every head. */
  lemma {:induction false} AllTrailsPerClimb(g: seq<seq<int>>, heads: seq<Position>, n: nat)
    requires IsMap(g) && AllInMap(g, heads) && n <= |heads|
    ensures |AllTrails(g, heads, n)| == |AllClimbs(g, heads, n)|
  {
    if n > 0 {
      AllTrailsPerClimb(g, heads, n - 1);
      TrailsPerClimb(g, heads[n - 1], heads[n - 1]);
    }
  }

  /** The climbs of distinct heads are distinct, and they are exactly the
      climbs out of one of the heads. */
  lemma {:induction false} AllClimbsMeaning(g: seq<seq<int>>, heads: seq<Position>, n: nat)
    requires IsMap(g) && AllInMap(g, heads) && n <= |heads| && NoDuplicates(heads)
    ensures NoDuplicates(AllClimbs(g, heads, n))
    ensures forall path :: path in AllClimbs(g, heads, n) <==> |path| > 0 && path[0] in heads[..n] && IsClimb(g, path[0], path)
  {
    if n > 0 {
      var h := heads[n - 1];
      AllClimbsMeaning(g, heads, n - 1);
      TrailsPerClimb(g, h, h);
      assert heads[..n] == heads[..n - 1] + [h];
      assert h !in heads[..n - 1];
      DistinctAppend(AllClimbs(g, heads, n - 1), Climbs(g, h));
    }
  }

  /** A hiking trail: a climb from an elevation-0 cell to an elevation-9
      cell. */
  ghost predicate HikingTrail(g: seq<seq<int>>, path: seq<Position>)
    requires IsMap(g)
  {
    HikingPath(g, path) && ElevAt(g, path[0]) == 0 && ElevAt(g, path[|path| - 1]) == 9
  }

  lemma HikingTrailIsClimb(g: seq<seq<int>>, path: seq<Position>)
    requires IsMap(g)
    ensures HikingTrail(g, path) <==>
      |path| > 0 && InMap(g, path[0]) && ElevAt(g, path[0]) == 0 && IsClimb(g, path[0], path)
  {
  }

  /** With the elevation-0 cells as heads, the climbs met are the hiking
      trails of the map, each once. */
  lemma HikingTrailsMet(g: seq<seq<int>>)
    requires IsMap(g)
    requires AllInMap(g, ZeroCells(g, |g|)) && NoDuplicates(ZeroCells(g, |g|))
    ensures NoDuplicates(AllClimbs(g, ZeroCells(g, |g|), |ZeroCells(g, |g|)|))
    ensures forall path :: path in AllClimbs(g, ZeroCells(g, |g|), |ZeroCells(g, |g|)|) <==> HikingTrail(g, path)
  {
    var heads := ZeroCells(g, |g|);
    AllClimbsMeaning(g, heads, |heads|);
    assert heads[..|heads|] == heads;
    forall path
      ensures path in AllClimbs(g, heads, |heads|) <==> HikingTrail(g, path)
    {
      if |path| > 0 {
        ZeroCellsMeaning(g, |g|, path[0]);
      }
      HikingTrailIsClimb(g, path);
    }
  }

  lemma AppendAssoc<T>(a: seq<T>, b: seq<T>, c: seq<T>)
    ensures (a + b) + c == a + (b + c)
  {
  }

  /** The *trails slice that day10TakeNextStep appends to. */
  class TrailLog {
    var trails: seq<Trail>

    constructor()
      ensures trails == []
    {
      trails := [];
    }

    /** day10TakeNextStep: appends TrailsFrom(currentPos) and returns
        FoundFrom(currentPos). */
    method TakeNextStep(currentPos: Position, gameMap: seq<seq<int>>, startingPos: Position) returns (foundTrail: bool)
      requires IsMap(gameMap) && InMap(gameMap, currentPos)
      modifies this
      ensures trails == old(trails) + TrailsFrom(gameMap, currentPos, startingPos)
      ensures foundTrail == FoundFrom(gameMap, currentPos)
      decreases 10 - ElevAt(gameMap, currentPos), 1
    {
      foundTrail := false;
      var steps := PossibleSteps(gameMap, currentPos);
      var i := 0;
      while i < |steps|
        invariant 0 <= i <= |steps|
        invariant trails == old(trails) + TrailsFromSteps(gameMap, currentPos, steps, i, startingPos)
        invariant foundTrail == FoundFromSteps(gameMap, currentPos, steps, i)
      {
        foundTrail := TakeStep(currentPos, steps[i], gameMap, startingPos, foundTrail);
        AppendAssoc(old(trails), TrailsFromSteps(gameMap, currentPos, steps, i, startingPos), Climb(gameMap, currentPos, steps[i], startingPos));
        i := i + 1;
      }
    }

    /** The body of the step loop of day10TakeNextStep for one step: a step
        one higher either completes a trail or continues the search, and
        overwrites foundTrail. */
    method TakeStep(currentPos: Position, step: Position, gameMap: seq<seq<int>>, startingPos: Position, foundBefore: bool)
      returns (foundTrail: bool)
      requires IsMap(gameMap) && InMap(gameMap, currentPos) && InMap(gameMap, step)
      modifies this
      ensures trails == old(trails) + Climb(gameMap, currentPos, step, startingPos)
      ensures foundTrail == if ElevAt(gameMap, step) != ElevAt(gameMap, currentPos) + 1 then foundBefore
                            else ElevAt(gameMap, step) == 9 || FoundFrom(gameMap, step)
      decreases 10 - ElevAt(gameMap, currentPos), 0
    {
      foundTrail := foundBefore;
      var currentElevation := gameMap[currentPos.row][currentPos.col];
      var possibleElevation := gameMap[step.row][step.col];
      if possibleElevation == currentElevation + 1 {
        if possibleElevation == 9 {
          trails := trails + [Trail(startingPos.row, startingPos.col, step.row, step.col)];
          foundTrail := true;
        } else {
          foundTrail := TakeNextStep(step, gameMap, startingPos);
        }
      } else {
        assert trails == old(trails) + [];
      }
    }

    /** The search loop of Day10: each head starts its own search. */
    method SearchAll(gameMap: seq<seq<int>>, trailHeads: seq<Position>)
      requires IsMap(gameMap) && AllInMap(gameMap, trailHeads)
      modifies this
      ensures trails == old(trails) + AllTrails(gameMap, trailHeads, |trailHeads|)
    {
      ghost var start := trails;
      var i := 0;
      while i < |trailHeads|
        invariant 0 <= i <= |trailHeads|
        invariant trails == start + AllTrails(gameMap, trailHeads, i)
      {
        var head := trailHeads[i];
        assert InMap(gameMap, head);
        ghost var before := trails;
        var _ := TakeNextStep(head, gameMap, head);
        SearchStep(start, gameMap, trailHeads, i, before, trails);
        i := i + 1;
      }
    }
  }

  // ------------------------------------------------------- dedup and score

  /** The dedup loop of Day10: keeps the first copy of each trail. */
  method RemoveDuplicates(trails: seq<Trail>) returns (destTrails: seq<Trail>)
    ensures NoDuplicates(destTrails)
    ensures forall t :: t in destTrails <==> t in trails
  {
    destTrails := [];
    var i := 0;
    while i < |trails|
      invariant 0 <= i <= |trails|
      invariant NoDuplicates(destTrails)
      invariant forall t :: t in destTrails <==> t in trails[..i]
    {
      var trail := trails[i];
      var seen := false;
      var k := 0;
      while k < |destTrails|
        invariant 0 <= k <= |destTrails|
        invariant !seen ==> trail !in destTrails[..k]
        invariant seen ==> trail in destTrails
      {
        if destTrails[k] == trail {
          seen := true;
          break;
        }
        k := k + 1;
      }
      if !seen {
        assert destTrails[..|destTrails|] == destTrails;
        destTrails := destTrails + [trail];
      }
      assert trails[..i + 1] == trails[..i] + [trail];
      i := i + 1;
    }
    assert trails[..|trails|] == trails;
  }

  /** The number of trails headed at head. */
  function HeadScore(trails: seq<Trail>, head: Position): (n: nat)
    ensures n <= |trails|
  {
    if trails == [] then 0
    else
      var t := trails[|trails| - 1];
      HeadScore(trails[..|trails| - 1], head) + (if t.headRow == head.row && t.headCol == head.col then 1 else 0)
  }

  /** The sum of the head scores over the heads. */
  function TotalScore(heads: seq<Position>, trails: seq<Trail>): (n: nat)
  {
    if heads == [] then 0
    else TotalScore(heads[..|heads| - 1], trails) + HeadScore(trails, heads[|heads| - 1])
  }

  /** The score loops of Day10. */
  method Score(trailHeads: seq<Position>, trails: seq<Trail>) returns (totalScore: nat)
    ensures totalScore == TotalScore(trailHeads, trails)
  {
    totalScore := 0;
    var i := 0;
    while i < |trailHeads|
      invariant 0 <= i <= |trailHeads|
      invariant totalScore == TotalScore(trailHeads[..i], trails)
    {
      var head := trailHeads[i];
      var trailScore := 0;
      var k := 0;
      while k < |trails|
        invariant 0 <= k <= |trails|
        invariant trailScore == HeadScore(trails[..k], head)
      {
        var trail := trails[k];
        if trail.headRow == head.row && trail.headCol == head.col {
          trailScore := trailScore + 1;
        }
        assert trails[..k + 1][..k] == trails[..k];
        k := k + 1;
      }
      assert trails[..|trails|] == trails;
      assert trailHeads[..i + 1][..i] == trailHeads[..i];
      totalScore := totalScore + trailScore;
      i := i + 1;
    }
    assert trailHeads[..|trailHeads|] == trailHeads;
  }

  /** How many of the heads are t's head: one when the heads are distinct
      and include it. */
  function HeadMatches(heads: seq<Position>, t: Trail): nat
  {
    if heads == [] then 0
    else
      var h := heads[|heads| - 1];
      HeadMatches(heads[..|heads| - 1], t) + (if t.headRow == h.row && t.headCol == h.col then 1 else 0)
  }

  lemma {:induction false} HeadMatchesOnce(heads: seq<Position>, t: Trail)
    requires NoDuplicates(heads) && Position(t.headRow, t.headCol) in heads
    ensures HeadMatches(heads, t) == 1
  {
    var init := heads[..|heads| - 1];
    if heads[|heads| - 1] == Position(t.headRow, t.headCol) {
      HeadMatchesNone(init, t);
    } else {
      assert Position(t.headRow, t.headCol) in init;
      HeadMatchesOnce(init, t);
    }
  }

  lemma {:induction false} HeadMatchesNone(heads: seq<Position>, t: Trail)
    requires Position(t.headRow, t.headCol) !in heads
    ensures HeadMatches(heads, t) == 0
  {
    if heads != [] {
      HeadMatchesNone(heads[..|heads| - 1], t);
    }
  }

  lemma {:induction false} TotalScoreAppend(heads: seq<Position>, trails: seq<Trail>, t: Trail)
    ensures TotalScore(heads, trails + [t]) == TotalScore(heads, trails) + HeadMatches(heads, t)
  {
    if heads != [] {
      TotalScoreAppend(heads[..|heads| - 1], trails, t);
      assert (trails + [t])[..|trails|] == trails;
    }
  }

  /** With distinct heads and every trail headed at one of them, the score
      counts every trail exactly once. */
  lemma {:induction false} ScoreCountsEveryTrail(heads: seq<Position>, trails: seq<Trail>)
    requires NoDuplicates(heads)
    requires forall t :: t in trails ==> Position(t.headRow, t.headCol) in heads
    ensures TotalScore(heads, trails) == |trails|
  {
    if trails == [] {
      TotalScoreEmpty(heads);
    } else {
      var init, t := trails[..|trails| - 1], trails[|trails| - 1];
      ScoreCountsEveryTrail(heads, init);
      TotalScoreAppend(heads, init, t);
      HeadMatchesOnce(heads, t);
      assert init + [t] == trails;
    }
  }

  lemma {:induction false} TotalScoreEmpty(heads: seq<Position>)
    ensures TotalScore(heads, []) == 0
  {
    if heads != [] {
      TotalScoreEmpty(heads[..|heads| - 1]);
    }
  }

  /** The dedup and score part of Day10: part 1 scores the distinct
      (head, tail) pairs, part 2 every trail. */
  method ScoreTrails(trailHeads: seq<Position>, trails: seq<Trail>) returns (part1: nat, part2: nat)
    requires NoDuplicates(trailHeads)
    requires forall t :: t in trails ==> Position(t.headRow, t.headCol) in trailHeads
    ensures part1 == |set t | t in trails|
    ensures part2 == |trails|
  {
    var destTrails := RemoveDuplicates(trails);
    part1 := Score(trailHeads, destTrails);
    ScoreCountsEveryTrail(trailHeads, destTrails);
    DistinctCount(destTrails);
    assert (set t | t in destTrails) == (set t | t in trails);
    part2 := Score(trailHeads, trails);
    ScoreCountsEveryTrail(trailHeads, trails);
  }

  /** Day10: part 1 counts the distinct (head, tail) pairs, part 2 every
      recorded trail, which is one per climb out of a trail head (see
      HikingTrailsMet for what those climbs are); an empty input yields no
      answer. */
  method Solve(inputLines: seq<string>) returns (scores: Option<(nat, nat)>)
    requires forall i :: 0 <= i < |inputLines| ==> |inputLines[i]| <= |inputLines[0]|
    ensures |inputLines| == 0 <==> scores.None?
    ensures scores.Some? ==>
      |inputLines| > 0 && IsMap(GameMap(inputLines)) &&
      AllInMap(GameMap(inputLines), ZeroCells(GameMap(inputLines), |inputLines|)) &&
      var g := GameMap(inputLines);
      var heads := ZeroCells(g, |inputLines|);
      var ts := AllTrails(g, heads, |heads|);
      scores.value.0 == |set t | t in ts| && scores.value.1 == |ts| &&
      scores.value.1 == |AllClimbs(g, heads, |heads|)|
  {
    if |inputLines| == 0 {
      return None;
    }
    var gameMap := BuildMap(inputLines);
    var trailHeads := FindTrailHeads(gameMap);
    var log := new TrailLog();
    log.SearchAll(gameMap, trailHeads);
    var trails := log.trails;
    assert trails == AllTrails(gameMap, trailHeads, |trailHeads|);
    forall t | t in trails
      ensures Position(t.headRow, t.headCol) in trailHeads
    {
      AllTrailsHeaded(gameMap, trailHeads, |trailHeads|, t);
    }
    var part1, part2 := ScoreTrails(trailHeads, trails);
    AllTrailsPerClimb(gameMap, trailHeads, |trailHeads|);
    scores := Some((part1, part2));
  }
}
