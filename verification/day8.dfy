/** Day 8: antennas on a grid, one frequency per character ('.' is an empty
    cell). Every ordered pair of distinct antennas of one frequency puts
    antinodes on the line through them: for each wave w >= 1, one at the
    first antenna pushed back w times the offset to the second, and one at
    the second pushed on w times that offset, as long as either lands on the
    grid. The answer is the number of cells that hold an antenna or an
    antinode. */
module Day8 {
  import opened GoText

  /** One grid cell: the antenna's frequency ("" for an empty cell) and the
      frequencies recorded on this cell; an antenna records its own. */
  datatype Cell = Cell(antennaFrequency: string, antiNodeList: seq<string>)

  /** The frequency a character stands for: none for '.', else the character. */
  function FrequencyOf(ch: char): string
  {
    if ch == '.' then "" else [ch]
  }

  /** The cell day8NewMatrix builds from one character. */
  function InitialCell(ch: char): Cell
  {
    if ch == '.' then Cell("", []) else Cell([ch], [[ch]])
  }

  /** The antinode behind the antenna at (row, col), `wave` offsets away from
      its brother. */
  function AntiNodeFrom(row: int, col: int, brother: (int, int), wave: int): (int, int)
  {
    (row - (brother.0 - row) * wave, col - (brother.1 - col) * wave)
  }

  /** The antinode beyond the brother, `wave` offsets away from it. */
  function AntiNodeInto(row: int, col: int, brother: (int, int), wave: int): (int, int)
  {
    (brother.0 + (brother.0 - row) * wave, brother.1 + (brother.1 - col) * wave)
  }

  predicate InBox(p: (int, int), h: int, w: int)
  {
    0 <= p.0 < h && 0 <= p.1 < w
  }

  // ------------------------------------------------------------ brother lists

  /** (y, x) comes before (j, i) in row-major order. */
  predicate Before(p: (int, int), q: (int, int))
  {
    p.0 < q.0 || (p.0 == q.0 && p.1 < q.1)
  }

  /** Positions listed in strictly increasing row-major order. */
  predicate RowMajor(ps: seq<(int, int)>)
  {
    forall a, b :: 0 <= a < b < |ps| ==> Before(ps[a], ps[b])
  }

  /** Whether (j, i) holds an antenna of frequency freq other than (row, col). */
  predicate IsBrother(rows: seq<string>, freq: string, row: int, col: int, j: int, i: int)
    requires 0 <= j < |rows| && 0 <= i < |rows[j]|
  {
    FrequencyOf(rows[j][i]) == freq && (j != row || i != col)
  }

  /** The brothers among the first n cells of line j, left to right. */
  function RowBrothers(rows: seq<string>, freq: string, row: int, col: int, j: int, n: nat): seq<(int, int)>
    requires 0 <= j < |rows| && n <= |rows[j]|
  {
    if n == 0 then []
    else
      RowBrothers(rows, freq, row, col, j, n - 1) +
      (if IsBrother(rows, freq, row, col, j, n - 1) then [(j, n - 1)] else [])
  }

  /** The brothers in the first m lines, each line as wide as the first. */
  function Brothers(rows: seq<string>, freq: string, row: int, col: int, m: nat): seq<(int, int)>
    requires RowsCoverWidth(rows) && m <= |rows|
  {
    if m == 0 then []
    else Brothers(rows, freq, row, col, m - 1) + RowBrothers(rows, freq, row, col, m - 1, |rows[0]|)
  }

  /** A line's brothers are exactly its cells before n that hold the
      frequency and are not (row, col). */
  lemma {:induction false} RowBrothersMembers(rows: seq<string>, freq: string, row: int, col: int, j: int, n: nat)
    requires 0 <= j < |rows| && n <= |rows[j]|
    ensures forall p :: p in RowBrothers(rows, freq, row, col, j, n) <==>
              p.0 == j && 0 <= p.1 < n && IsBrother(rows, freq, row, col, j, p.1)
  {
    if n > 0 {
      RowBrothersMembers(rows, freq, row, col, j, n - 1);
    }
  }

  /** A line's brothers lie in that line, left to right. */
  lemma {:induction false} RowBrothersRowMajor(rows: seq<string>, freq: string, row: int, col: int, j: int, n: nat)
    requires 0 <= j < |rows| && n <= |rows[j]|
    ensures forall k :: 0 <= k < |RowBrothers(rows, freq, row, col, j, n)| ==>
              RowBrothers(rows, freq, row, col, j, n)[k].0 == j &&
              RowBrothers(rows, freq, row, col, j, n)[k].1 < n
    ensures RowMajor(RowBrothers(rows, freq, row, col, j, n))
  {
    if n > 0 {
      RowBrothersRowMajor(rows, freq, row, col, j, n - 1);
    }
  }

  /** getBrotherList: every other antenna of the frequency inside the grid
      is listed, and nothing else. */
  lemma {:induction false} BrothersMembers(rows: seq<string>, freq: string, row: int, col: int, m: nat)
    requires RowsCoverWidth(rows) && m <= |rows|
    ensures forall p :: p in Brothers(rows, freq, row, col, m) <==>
              0 <= p.0 < m && 0 <= p.1 < |rows[0]| && IsBrother(rows, freq, row, col, p.0, p.1)
  {
    if m > 0 {
      BrothersMembers(rows, freq, row, col, m - 1);
      RowBrothersMembers(rows, freq, row, col, m - 1, |rows[0]|);
    }
  }

  /** getBrotherList lists the brothers in row-major order, so each once. */
  lemma {:induction false} BrothersRowMajor(rows: seq<string>, freq: string, row: int, col: int, m: nat)
    requires RowsCoverWidth(rows) && m <= |rows|
    ensures forall k :: 0 <= k < |Brothers(rows, freq, row, col, m)| ==> Brothers(rows, freq, row, col, m)[k].0 < m
    ensures RowMajor(Brothers(rows, freq, row, col, m))
  {
    if m > 0 {
      var earlier := Brothers(rows, freq, row, col, m - 1);
      var line := RowBrothers(rows, freq, row, col, m - 1, |rows[0]|);
      BrothersRowMajor(rows, freq, row, col, m - 1);
      RowBrothersRowMajor(rows, freq, row, col, m - 1, |rows[0]|);
      var all := earlier + line;
      forall k | 0 <= k < |all|
        ensures all[k].0 < m
      {
        if k >= |earlier| {
          assert all[k] == line[k - |earlier|];
        }
      }
      forall a, b | 0 <= a < b < |all|
        ensures Before(all[a], all[b])
      {
        if b < |earlier| {
          assert all[a] == earlier[a] && all[b] == earlier[b];
        } else if a >= |earlier| {
          assert all[a] == line[a - |earlier|] && all[b] == line[b - |earlier|];
        } else {
          assert all[a] == earlier[a] && all[b] == line[b - |earlier|];
        }
      }
    }
  }

  /** A brother is never the antenna itself. */
  lemma BrotherIsElsewhere(rows: seq<string>, freq: string, row: int, col: int, p: (int, int))
    requires RowsCoverWidth(rows)
    requires p in Brothers(rows, freq, row, col, |rows|)
    ensures p != (row, col) && InBox(p, |rows|, |rows[0]|)
    ensures FrequencyOf(rows[p.0][p.1]) == freq
  {
    BrothersMembers(rows, freq, row, col, |rows|);
  }

  // ------------------------------------------------------------ waves

  /** |d * wave| is at least wave for a nonzero offset d. */
  lemma {:induction false} ScaledOffset(d: int, wave: nat)
    requires d != 0
    ensures d > 0 ==> d * wave >= wave
    ensures d < 0 ==> d * wave <= 0 - wave
  {
    if wave > 0 {
      ScaledOffset(d, wave - 1);
      assert d * wave == d * (wave - 1) + d;
    }
  }

  /** Past the grid's height plus width, both antinodes of a pair of distinct
      cells of the grid are off the grid, so the wave loop stops. */
  lemma WaveLeavesGrid(h: int, w: int, row: int, col: int, brother: (int, int), wave: nat)
    requires InBox((row, col), h, w) && InBox(brother, h, w) && brother != (row, col)
    requires wave > h + w
    ensures !InBox(AntiNodeFrom(row, col, brother, wave), h, w)
    ensures !InBox(AntiNodeInto(row, col, brother, wave), h, w)
  {
    if brother.0 != row {
      ScaledOffset(brother.0 - row, wave);
    } else {
      ScaledOffset(brother.1 - col, wave);
    }
  }

  /** An antinode stays off the grid once it has left it: along one line
      the waves that land on the grid form a run from 0. */
  lemma FromStaysOff(h: int, w: int, row: int, col: int, brother: (int, int), wave: nat, later: nat)
    requires InBox((row, col), h, w) && wave <= later
    requires !InBox(AntiNodeFrom(row, col, brother, wave), h, w)
    ensures !InBox(AntiNodeFrom(row, col, brother, later), h, w)
  {
    var dr, dc := brother.0 - row, brother.1 - col;
    var k := later - wave;
    assert dr * later == dr * wave + dr * k;
    assert dc * later == dc * wave + dc * k;
    SignedProduct(dr, k);
    SignedProduct(dc, k);
    SignedProduct(dr, wave);
    SignedProduct(dc, wave);
  }

  lemma SignedProduct(d: int, k: nat)
    ensures d >= 0 ==> d * k >= 0
    ensures d <= 0 ==> d * k <= 0
  {
  }

  /** The antinode beyond the brother is the one behind the brother when
      the pair is taken the other way round. */
  lemma IntoIsFrom(row: int, col: int, brother: (int, int), wave: int)
    ensures AntiNodeInto(row, col, brother, wave) == AntiNodeFrom(brother.0, brother.1, (row, col), wave)
  {
    assert (row - brother.0) * wave == -((brother.0 - row) * wave);
    assert (col - brother.1) * wave == -((brother.1 - col) * wave);
  }

  // ------------------------------------------------------------ antinodes

  /** a and b are distinct antennas of one frequency inside the grid. */
  predicate AntennaPair(rows: seq<string>, a: (int, int), b: (int, int))
  {
    RowsCoverWidth(rows) && InBox(a, |rows|, |rows[0]|) && InBox(b, |rows|, |rows[0]|) && a != b &&
    FrequencyOf(rows[a.0][a.1]) != "" && FrequencyOf(rows[a.0][a.1]) == FrequencyOf(rows[b.0][b.1])
  }

  /** p is an antinode: some wave away behind an antenna of some pair. */
  ghost predicate IsAntiNode(rows: seq<string>, p: (int, int))
  {
    exists a, b, w :: AntennaPair(rows, a, b) && w >= 1 && p == AntiNodeFrom(a.0, a.1, b, w)
  }

  /** A grid cell that ends with a non-empty list: an antenna or an antinode. */
  ghost predicate Marked(rows: seq<string>, p: (int, int))
  {
    RowsCoverWidth(rows) && InBox(p, |rows|, |rows[0]|) &&
    (rows[p.0][p.1] != '.' || IsAntiNode(rows, p))
  }

  /** Every antinode of the pair (a, b) that lands on the h by w grid is in S. */
  ghost predicate Covered(a: (int, int), b: (int, int), h: int, w: int, S: set<(int, int)>)
  {
    forall wave :: wave >= 1 && InBox(AntiNodeFrom(a.0, a.1, b, wave), h, w) ==>
      AntiNodeFrom(a.0, a.1, b, wave) in S
  }

  /** Both antinodes a pair sends out at a wave are antinodes: the one
      beyond the brother is the one the brother sends out behind itself. */
  lemma PairAntiNodes(rows: seq<string>, a: (int, int), b: (int, int), wave: int)
    requires AntennaPair(rows, a, b) && wave >= 1
    ensures IsAntiNode(rows, AntiNodeFrom(a.0, a.1, b, wave))
    ensures IsAntiNode(rows, AntiNodeInto(a.0, a.1, b, wave))
    ensures InBox(AntiNodeFrom(a.0, a.1, b, wave), |rows|, |rows[0]|) ==> Marked(rows, AntiNodeFrom(a.0, a.1, b, wave))
    ensures InBox(AntiNodeInto(a.0, a.1, b, wave), |rows|, |rows[0]|) ==> Marked(rows, AntiNodeInto(a.0, a.1, b, wave))
  {
    IntoIsFrom(a.0, a.1, b, wave);
    assert AntennaPair(rows, b, a);
    assert AntiNodeInto(a.0, a.1, b, wave) == AntiNodeFrom(b.0, b.1, (a.0, a.1), wave);
  }

  /** One more brother done: the pairs covered so far stay covered. */
  lemma CoveredPrefixGrows(a: (int, int), bs: seq<(int, int)>, k: int, h: int, w: int,
                           S: set<(int, int)>, T: set<(int, int)>)
    requires 0 <= k < |bs| && S <= T
    requires forall n :: 0 <= n < k ==> Covered(a, bs[n], h, w, S)
    requires Covered(a, bs[k], h, w, T)
    ensures forall n :: 0 <= n < k + 1 ==> Covered(a, bs[n], h, w, T)
  {
    forall n | 0 <= n < k
      ensures Covered(a, bs[n], h, w, T)
    {
      CoveredGrows(a, bs[n], h, w, S, T);
    }
  }

  /** Once every listed brother is covered, every pair of the antenna is. */
  lemma BrothersCovered(rows: seq<string>, row: int, col: int, bs: seq<(int, int)>, S: set<(int, int)>)
    requires RowsCoverWidth(rows) && InBox((row, col), |rows|, |rows[0]|)
    requires bs == Brothers(rows, FrequencyOf(rows[row][col]), row, col, |rows|)
    requires forall n :: 0 <= n < |bs| ==> Covered((row, col), bs[n], |rows|, |rows[0]|, S)
    ensures forall b :: AntennaPair(rows, (row, col), b) ==> Covered((row, col), b, |rows|, |rows[0]|, S)
  {
    forall b | AntennaPair(rows, (row, col), b)
      ensures Covered((row, col), b, |rows|, |rows[0]|, S)
    {
      BrothersMembers(rows, FrequencyOf(rows[row][col]), row, col, |rows|);
      assert b in bs;
    }
  }

  /** Adding the antinodes of one wave keeps every mark sound. */
  lemma MarksStaySound(rows: seq<string>, before: set<(int, int)>, after: set<(int, int)>,
                       a: (int, int), b: (int, int), wave: int)
    requires AntennaPair(rows, a, b) && wave >= 1
    requires after <= before + {AntiNodeFrom(a.0, a.1, b, wave), AntiNodeInto(a.0, a.1, b, wave)}
    requires forall p :: p in before ==> Marked(rows, p)
    requires forall p :: p in after ==> InBox(p, |rows|, |rows[0]|)
    ensures forall p :: p in after ==> Marked(rows, p)
  {
    PairAntiNodes(rows, a, b, wave);
    forall p | p in after
      ensures Marked(rows, p)
    {
      if p !in before {
        assert p == AntiNodeFrom(a.0, a.1, b, wave) || p == AntiNodeInto(a.0, a.1, b, wave);
      }
    }
  }

  lemma CoveredGrows(a: (int, int), b: (int, int), h: int, w: int, S: set<(int, int)>, T: set<(int, int)>)
    requires Covered(a, b, h, w, S) && S <= T
    ensures Covered(a, b, h, w, T)
  {
  }

  /** Number of marked cells among the first n of line j. */
  ghost function RowMarked(rows: seq<string>, j: int, n: nat): nat
    requires RowsCoverWidth(rows) && 0 <= j < |rows| && n <= |rows[0]|
  {
    if n == 0 then 0 else RowMarked(rows, j, n - 1) + (if Marked(rows, (j, n - 1)) then 1 else 0)
  }

  /** Number of marked cells in the first m lines: the Day 8 answer. */
  ghost function GridMarked(rows: seq<string>, m: nat): nat
    requires RowsCoverWidth(rows) && m <= |rows|
  {
    if m == 0 then 0 else GridMarked(rows, m - 1) + RowMarked(rows, m - 1, |rows[0]|)
  }

  // ------------------------------------------------------------ counting

  /** Number of antennas among the first n characters of a line. */
  function LineAntennas(line: string, n: nat): (r: nat)
    requires n <= |line|
    ensures r <= n
  {
    if n == 0 then 0 else LineAntennas(line, n - 1) + (if line[n - 1] != '.' then 1 else 0)
  }

  /** Number of antennas in the first m lines, each as wide as the first. */
  function GridAntennas(rows: seq<string>, m: nat): nat
    requires RowsCoverWidth(rows) && m <= |rows|
  {
    if m == 0 then 0 else GridAntennas(rows, m - 1) + LineAntennas(rows[m - 1], |rows[0]|)
  }

  /** Number of cells with a non-empty antinode list among the first n
      cells of line j. */
  function RowAntiNodes(a: array2<Cell>, j: int, n: int): (r: nat)
    reads a
    requires 0 <= j < a.Length0 && 0 <= n <= a.Length1
    ensures r <= n
  {
    if n == 0 then 0 else RowAntiNodes(a, j, n - 1) + (if |a[j, n - 1].antiNodeList| > 0 then 1 else 0)
  }

  /** Number of cells with a non-empty antinode list in the first m lines. */
  function GridAntiNodes(a: array2<Cell>, m: int): (r: nat)
    reads a
    requires 0 <= m <= a.Length0
    ensures r <= m * a.Length1
  {
    if m == 0 then 0
    else
      var r := GridAntiNodes(a, m - 1) + RowAntiNodes(a, m - 1, a.Length1);
      assert r <= (m - 1) * a.Length1 + a.Length1;
      r
  }

  /** Where the cells with a non-empty list are exactly the marked ones,
      a line's count of such cells is its count of marked cells. */
  lemma {:induction false} RowCountsMarked(rows: seq<string>, a: array2<Cell>, j: int, n: int)
    requires RowsCoverWidth(rows) && a.Length0 == |rows| && a.Length1 == |rows[0]|
    requires 0 <= j < a.Length0 && 0 <= n <= a.Length1
    requires forall i :: 0 <= i < n ==> (|a[j, i].antiNodeList| > 0 <==> Marked(rows, (j, i)))
    ensures RowAntiNodes(a, j, n) == RowMarked(rows, j, n)
  {
    if n > 0 {
      RowCountsMarked(rows, a, j, n - 1);
    }
  }

  lemma {:induction false} GridCountsMarked(rows: seq<string>, a: array2<Cell>, m: int)
    requires RowsCoverWidth(rows) && a.Length0 == |rows| && a.Length1 == |rows[0]| && 0 <= m <= a.Length0
    requires forall j, i :: 0 <= j < a.Length0 && 0 <= i < a.Length1 ==>
               (|a[j, i].antiNodeList| > 0 <==> Marked(rows, (j, i)))
    ensures GridAntiNodes(a, m) == GridMarked(rows, m)
  {
    if m > 0 {
      GridCountsMarked(rows, a, m - 1);
      RowCountsMarked(rows, a, m - 1, a.Length1);
    }
  }

  /** Every antenna marks its own cell, and no line marks more cells than
      it has. */
  lemma {:induction false} RowMarkedBounds(rows: seq<string>, j: int, n: nat)
    requires RowsCoverWidth(rows) && 0 <= j < |rows| && n <= |rows[0]|
    ensures LineAntennas(rows[j], n) <= RowMarked(rows, j, n) <= n
  {
    if n > 0 {
      RowMarkedBounds(rows, j, n - 1);
    }
  }

  /** The answer lies between the number of antennas and the grid's size. */
  lemma {:induction false} GridMarkedBounds(rows: seq<string>, m: nat)
    requires RowsCoverWidth(rows) && m <= |rows|
    ensures GridAntennas(rows, m) <= GridMarked(rows, m) <= m * |rows[0]|
  {
    if m > 0 {
      GridMarkedBounds(rows, m - 1);
      RowMarkedBounds(rows, m - 1, |rows[0]|);
      assert (m - 1) * |rows[0]| + |rows[0]| == m * |rows[0]|;
    }
  }

  // ------------------------------------------------------------ the matrix

  class Matrix {
    /** The input lines. */
    const rows: seq<string>
    /** cells[j, i] is the cell in line j, column i. */
    const cells: array2<Cell>
    /** The cells whose antinode list is not empty. */
    ghost var marked: set<(int, int)>

    /** The grid has one line per input line and the first line's width. */
    predicate Shaped()
      reads this
    {
      RowsCoverWidth(rows) && cells.Length0 == |rows| && cells.Length1 == |rows[0]|
    }

    /** Every cell keeps the antenna its character gave it, and `marked`
        holds exactly the cells with a non-empty list. */
    ghost predicate Valid()
      reads this, cells
    {
      Tuned() &&
      (forall j, i :: 0 <= j < cells.Length0 && 0 <= i < cells.Length1 ==>
         ((j, i) in marked <==> |cells[j, i].antiNodeList| > 0)) &&
      (forall p :: p in marked ==> InGrid(p))
    }

    /** Every cell keeps the antenna its character gave it. */
    ghost predicate Tuned()
      reads this, cells
    {
      Shaped() &&
      forall j, i :: 0 <= j < cells.Length0 && 0 <= i < cells.Length1 ==>
        cells[j, i].antennaFrequency == FrequencyOf(rows[j][i])
    }

    /** Only antennas and antinodes are marked. */
    ghost predicate Sound()
      reads this
    {
      forall p :: p in marked ==> Marked(rows, p)
    }

    predicate InGrid(p: (int, int))
      reads this
    {
      InBox(p, cells.Length0, cells.Length1)
    }

    /** day8NewMatrix: one cell per character of the first |lines[0]|
        columns of each line; an antenna cell starts with its own frequency
        in its antinode list, an empty cell with an empty list. */
    constructor (input: string)
      requires RowsCoverWidth(Split(input, "\n"))
      ensures rows == Split(input, "\n") && Shaped() && fresh(cells)
      ensures forall j, i :: 0 <= j < cells.Length0 && 0 <= i < cells.Length1 ==>
                cells[j, i] == InitialCell(rows[j][i])
      ensures forall p :: p in marked <==> InGrid(p) && rows[p.0][p.1] != '.'
      ensures Valid() && Sound()
    {
      var lines := Split(input, "\n");
      rows := lines;
      cells := new Cell[|lines|, |lines[0]|];
      marked := {};
      new;
      var h, w := cells.Length0, cells.Length1;
      var j := 0;
      while j < h
        invariant 0 <= j <= h
        invariant forall y, x :: 0 <= y < j && 0 <= x < w ==> cells[y, x] == InitialCell(rows[y][x])
        invariant forall p :: p in marked <==> InBox(p, j, w) && rows[p.0][p.1] != '.'
        invariant Shaped()
      {
        InitLine(j);
        j := j + 1;
      }
    }

    /** The inner loop of day8NewMatrix over line j. */
    method InitLine(j: int)
      requires Shaped() && 0 <= j < cells.Length0
      requires forall p :: p in marked <==> InBox(p, j, cells.Length1) && rows[p.0][p.1] != '.'
      modifies this`marked, cells
      ensures forall y, x :: 0 <= y < cells.Length0 && 0 <= x < cells.Length1 ==>
                cells[y, x] == if y == j then InitialCell(rows[y][x]) else old(cells[y, x])
      ensures forall p :: p in marked <==> InBox(p, j + 1, cells.Length1) && rows[p.0][p.1] != '.'
    {
      var i := 0;
      while i < cells.Length1
        invariant 0 <= i <= cells.Length1
        invariant forall y, x :: 0 <= y < cells.Length0 && 0 <= x < cells.Length1 ==>
                    cells[y, x] == if y == j && x < i then InitialCell(rows[y][x]) else old(cells[y, x])
        invariant forall p :: p in marked <==>
                    (InBox(p, j, cells.Length1) || (p.0 == j && 0 <= p.1 < i)) && rows[p.0][p.1] != '.'
      {
        var inputStr := rows[j][i];
        var cell := Cell("", []);
        if inputStr != '.' {
          cell := Cell([inputStr], cell.antiNodeList + [[inputStr]]);
          marked := marked + {(j, i)};
        }
        cells[j, i] := cell;
        i := i + 1;
      }
    }

    /** getBrotherList: scans the grid row by row for the other antennas of
        the frequency. */
    method BrotherList(freq: string, row: int, col: int) returns (brotherList: seq<(int, int)>)
      requires Tuned()
      ensures brotherList == Brothers(rows, freq, row, col, |rows|)
    {
      brotherList := [];
      var j := 0;
      while j < cells.Length0
        invariant 0 <= j <= cells.Length0 == |rows|
        invariant brotherList == Brothers(rows, freq, row, col, j)
      {
        var line := LineBrothers(freq, row, col, j);
        assert Brothers(rows, freq, row, col, j + 1) == brotherList + line;
        brotherList := brotherList + line;
        j := j + 1;
      }
    }

    /** The inner loop of getBrotherList over line j. */
    method LineBrothers(freq: string, row: int, col: int, j: int) returns (line: seq<(int, int)>)
      requires Tuned() && 0 <= j < cells.Length0
      ensures line == RowBrothers(rows, freq, row, col, j, |rows[0]|)
    {
      line := [];
      var i := 0;
      while i < cells.Length1
        invariant 0 <= i <= cells.Length1
        invariant line == RowBrothers(rows, freq, row, col, j, i)
      {
        assert cells[j, i].antennaFrequency == FrequencyOf(rows[j][i]);
        if cells[j, i].antennaFrequency == freq && (j != row || i != col) {
          line := line + [(j, i)];
        }
        i := i + 1;
      }
    }

    /** calcAntiNodesByWave: records freq on each of the two antinodes of the
        pair at this wave that lands on the grid, and reports whether any
        did. Nothing else changes. */
    method CalcAntiNodesByWave(wave: int, brother: (int, int), row: int, col: int, freq: string)
      returns (foundNodes: bool)
      requires Valid()
      modifies this, cells
      ensures Valid()
      ensures foundNodes == (InGrid(AntiNodeFrom(row, col, brother, wave)) ||
                             InGrid(AntiNodeInto(row, col, brother, wave)))
      ensures forall j, i :: 0 <= j < cells.Length0 && 0 <= i < cells.Length1 ==>
                cells[j, i] == old(cells[j, i]).(antiNodeList := old(cells[j, i]).antiNodeList +
                  (if (j, i) == AntiNodeFrom(row, col, brother, wave) then [freq] else []) +
                  (if (j, i) == AntiNodeInto(row, col, brother, wave) then [freq] else []))
      ensures marked == old(marked) +
                (if InGrid(AntiNodeFrom(row, col, brother, wave)) then {AntiNodeFrom(row, col, brother, wave)} else {}) +
                (if InGrid(AntiNodeInto(row, col, brother, wave)) then {AntiNodeInto(row, col, brother, wave)} else {})
    {
      var from := AntiNodeFrom(row, col, brother, wave);
      var fromFound := MarkInGrid(from, freq);
      var into := AntiNodeInto(row, col, brother, wave);
      var intoFound := MarkInGrid(into, freq);
      foundNodes := fromFound || intoFound;
    }

    /** One antinode of calcAntiNodesByWave: recorded when it lands on the
        grid, which is what the result reports. */
    method MarkInGrid(p: (int, int), freq: string) returns (found: bool)
      requires Valid()
      modifies this, cells
      ensures Valid() && found == InGrid(p)
      ensures marked == old(marked) + (if InGrid(p) then {p} else {})
      ensures forall j, i :: 0 <= j < cells.Length0 && 0 <= i < cells.Length1 ==>
                cells[j, i] == old(cells[j, i]).(antiNodeList := old(cells[j, i]).antiNodeList +
                  (if (j, i) == p then [freq] else []))
    {
      found := false;
      if InGrid(p) {
        Append(p, freq);
        found := true;
      }
    }

    /** Adds freq at the end of one cell's antinode list. */
    method Append(p: (int, int), freq: string)
      requires Valid() && InGrid(p)
      modifies this, cells
      ensures Valid() && marked == old(marked) + {p}
      ensures forall j, i :: 0 <= j < cells.Length0 && 0 <= i < cells.Length1 ==>
                cells[j, i] == old(cells[j, i]).(antiNodeList := old(cells[j, i]).antiNodeList +
                  (if (j, i) == p then [freq] else []))
    {
      var cell := cells[p.0, p.1];
      cells[p.0, p.1] := cell.(antiNodeList := cell.antiNodeList + [freq]);
      marked := marked + {p};
    }

    /** The wave loop of calcAntiNodes for one antenna and one brother:
        waves 1, 2, ... until neither antinode lands on the grid. Every
        antinode behind the antenna that lands on the grid gets marked, and
        only antinodes of the pair get marked. */
    method SpreadWaves(brother: (int, int), row: int, col: int, freq: string)
      requires Valid() && Sound() && AntennaPair(rows, (row, col), brother)
      modifies this, cells
      ensures Valid() && old(marked) <= marked
      ensures Covered((row, col), brother, cells.Length0, cells.Length1, marked)
      ensures Sound()
    {
      var h, w := cells.Length0, cells.Length1;
      var wave := 1;
      var more := WaveStep(wave, brother, row, col, freq);
      while more
        invariant Valid() && old(marked) <= marked
        invariant wave >= 1
        invariant more ==> wave <= h + w
        invariant !more ==> !InBox(AntiNodeFrom(row, col, brother, wave), h, w)
        invariant forall v :: 1 <= v <= wave && InBox(AntiNodeFrom(row, col, brother, v), h, w) ==>
                    AntiNodeFrom(row, col, brother, v) in marked
        invariant Sound()
        decreases h + w - wave
      {
        wave := wave + 1;
        if wave > h + w {
          WaveLeavesGrid(h, w, row, col, brother, wave);
        }
        more := WaveStep(wave, brother, row, col, freq);
      }
      forall v | v >= 1 && InBox(AntiNodeFrom(row, col, brother, v), h, w)
        ensures AntiNodeFrom(row, col, brother, v) in marked
      {
        if v > wave {
          FromStaysOff(h, w, row, col, brother, wave, v);
        }
      }
    }

    /** One call of calcAntiNodesByWave inside the wave loop, with what the
        loop needs to know about it. */
    method WaveStep(wave: int, brother: (int, int), row: int, col: int, freq: string) returns (more: bool)
      requires Valid() && Sound() && AntennaPair(rows, (row, col), brother) && wave >= 1
      modifies this, cells
      ensures Valid() && old(marked) <= marked
      ensures more == (InGrid(AntiNodeFrom(row, col, brother, wave)) ||
                       InGrid(AntiNodeInto(row, col, brother, wave)))
      ensures InGrid(AntiNodeFrom(row, col, brother, wave)) ==> AntiNodeFrom(row, col, brother, wave) in marked
      ensures Sound()
    {
      ghost var before := marked;
      more := CalcAntiNodesByWave(wave, brother, row, col, freq);
      MarksStaySound(rows, before, marked, (row, col), brother, wave);
    }

    /** The body of calcAntiNodes for one cell: an antenna gets its brother
        list, and each brother its run of waves. Afterwards every antinode
        behind this antenna is marked. */
    method AntennaAntiNodes(row: int, col: int)
      requires Valid() && Sound() && InGrid((row, col))
      modifies this, cells
      ensures Valid() && old(marked) <= marked
      ensures forall b :: AntennaPair(rows, (row, col), b) ==> Covered((row, col), b, cells.Length0, cells.Length1, marked)
      ensures Sound()
    {
      var h, w := cells.Length0, cells.Length1;
      var cell := cells[row, col];
      assert cell.antennaFrequency == FrequencyOf(rows[row][col]);
      if cell.antennaFrequency != "" {
        var brotherList := BrotherList(cell.antennaFrequency, row, col);
        var k := 0;
        while k < |brotherList|
          invariant 0 <= k <= |brotherList|
          invariant Valid() && old(marked) <= marked
          invariant forall n :: 0 <= n < k ==> Covered((row, col), brotherList[n], h, w, marked)
          invariant Sound()
        {
          BrotherIsElsewhere(rows, cell.antennaFrequency, row, col, brotherList[k]);
          ghost var before := marked;
          SpreadWaves(brotherList[k], row, col, cell.antennaFrequency);
          CoveredPrefixGrows((row, col), brotherList, k, h, w, before, marked);
          k := k + 1;
        }
        BrothersCovered(rows, row, col, brotherList, marked);
      }
    }

    /** calcAntiNodes: every cell in row-major order. Antennas keep their
        frequency, antinode lists only grow, and afterwards the marked cells
        are exactly the antennas and the antinodes on the grid. */
    method CalcAntiNodes()
      requires Valid() && Sound()
      requires forall p :: InGrid(p) && rows[p.0][p.1] != '.' ==> p in marked
      modifies this, cells
      ensures Valid() && Sound()
      ensures forall p :: p in marked <==> Marked(rows, p)
    {
      var h, w := cells.Length0, cells.Length1;
      var row := 0;
      while row < h
        invariant 0 <= row <= h
        invariant Valid() && Sound() && old(marked) <= marked
        invariant forall a, b :: AntennaPair(rows, a, b) && a.0 < row ==> Covered(a, b, h, w, marked)
      {
        var col := 0;
        while col < w
          invariant 0 <= col <= w
          invariant Valid() && Sound() && old(marked) <= marked
            invariant forall a, b :: AntennaPair(rows, a, b) && Before(a, (row, col)) ==> Covered(a, b, h, w, marked)
        {
          ghost var before := marked;
          AntennaAntiNodes(row, col);
          forall a, b | AntennaPair(rows, a, b) && Before(a, (row, col))
            ensures Covered(a, b, h, w, marked)
          {
            CoveredGrows(a, b, h, w, before, marked);
          }
          col := col + 1;
        }
        row := row + 1;
      }
      forall p | Marked(rows, p)
        ensures p in marked
      {
        if rows[p.0][p.1] == '.' {
          var a, b, v :| AntennaPair(rows, a, b) && v >= 1 && p == AntiNodeFrom(a.0, a.1, b, v);
          assert Covered(a, b, h, w, marked);
        }
      }
    }

    /** The counting loop of Day8: cells with a non-empty antinode list. */
    method CountAntiNodes() returns (countAntiNodes: nat)
      ensures countAntiNodes == GridAntiNodes(cells, cells.Length0)
    {
      countAntiNodes := 0;
      var row := 0;
      while row < cells.Length0
        invariant 0 <= row <= cells.Length0
        invariant countAntiNodes == GridAntiNodes(cells, row)
      {
        var col := 0;
        while col < cells.Length1
          invariant 0 <= col <= cells.Length1
          invariant countAntiNodes == GridAntiNodes(cells, row) + RowAntiNodes(cells, row, col)
        {
          if |cells[row, col].antiNodeList| > 0 {
            countAntiNodes := countAntiNodes + 1;
          }
          col := col + 1;
        }
        row := row + 1;
      }
    }
  }

  /** Day8: the number of grid cells that hold an antenna or an antinode. */
  method Day8(input: string) returns (countAntiNodes: nat)
    requires RowsCoverWidth(Split(input, "\n"))
    ensures countAntiNodes == GridMarked(Split(input, "\n"), |Split(input, "\n")|)
  {
    var matrix := new Matrix(input);
    matrix.CalcAntiNodes();
    countAntiNodes := matrix.CountAntiNodes();
    GridCountsMarked(matrix.rows, matrix.cells, matrix.cells.Length0);
  }
}
