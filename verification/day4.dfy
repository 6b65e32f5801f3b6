/** Day 4: a word search. Every cell of the letter grid keeps a star list
    that maps each of the eight compass directions to the word read from the
    cell in that direction. Part 1 fills it with four-letter words and counts
    the entries that read "XMAS"; part 2 rewrites the diagonal entries with
    three-letter words and counts the 'A' cells where at least two diagonal
    neighbours read "MAS" through that 'A'. */
module Day4 {
  import opened GoText

  /** The directions of CompassDirections. */
  datatype Direction = N | NE | E | SE | S | SW | W | NW

  /** CompassDirections, in its order. */
  const Compass: seq<Direction> := [N, NE, E, SE, S, SW, W, NW]

  /** The position of a direction in Compass. */
  function Rank(d: Direction): (k: nat)
    ensures k < |Compass| && Compass[k] == d
  {
    match d
    case N => 0
    case NE => 1
    case E => 2
    case SE => 3
    case S => 4
    case SW => 5
    case W => 6
    case NW => 7
  }

  /** Compass lists each direction once. */
  lemma RankOf(k: nat)
    requires k < |Compass|
    ensures Rank(Compass[k]) == k
  {
  }

  predicate IsDiagonal(d: Direction)
  {
    d == NE || d == SE || d == SW || d == NW
  }

  /** The row step of a direction (rows grow southwards) ... */
  function RowStep(d: Direction): int
  {
    match d
    case N => -1
    case NE => -1
    case E => 0
    case SE => 1
    case S => 1
    case SW => 1
    case W => 0
    case NW => -1
  }

  /** ... and its column step (columns grow eastwards). */
  function ColStep(d: Direction): int
  {
    match d
    case N => 0
    case NE => 1
    case E => 1
    case SE => 1
    case S => 0
    case SW => -1
    case W => -1
    case NW => -1
  }

  /** k times a step of -1, 0 or 1. */
  function Steps(k: int, step: int): int
  {
    if step > 0 then k else if step < 0 then -k else 0
  }

  /** The cell k steps from p in direction d. */
  function Walk(p: (int, int), d: Direction, k: int): (int, int)
  {
    (p.0 + Steps(k, RowStep(d)), p.1 + Steps(k, ColStep(d)))
  }

  function Opposite(d: Direction): Direction
  {
    match d
    case N => S
    case NE => SW
    case E => W
    case SE => NW
    case S => N
    case SW => NE
    case W => E
    case NW => SE
  }

  /** Walking back the way one came returns to the start. */
  lemma WalkBack(p: (int, int), d: Direction, k: int)
    ensures Walk(Walk(p, d, k), Opposite(d), k) == p
  {
  }

  // -------------------------------------------------------------- the grid

  /** Every line as long as the first. */
  predicate Rectangular(rows: seq<string>)
  {
    |rows| > 0 && forall j :: 0 <= j < |rows| ==> |rows[j]| == |rows[0]|
  }

  predicate InGrid(rows: seq<string>, p: (int, int))
  {
    |rows| > 0 && 0 <= p.0 < |rows| && 0 <= p.1 < |rows[0]|
  }

  /** Both p and the cell `reach` steps on in direction d lie on the grid,
      and so does every cell in between. */
  predicate Fits(rows: seq<string>, p: (int, int), d: Direction, reach: int)
  {
    InGrid(rows, p) && InGrid(rows, Walk(p, d, reach))
  }

  /** The letter k steps from p in direction d. */
  function Letter(rows: seq<string>, p: (int, int), d: Direction, k: int): char
    requires Rectangular(rows) && InGrid(rows, Walk(p, d, k))
  {
    rows[Walk(p, d, k).0][Walk(p, d, k).1]
  }

  /** The letters from p to `reach` steps on in direction d: three for
      calcMasList (reach 2), four for calcStarList (reach 3). */
  function Word(rows: seq<string>, p: (int, int), d: Direction, reach: int): (word: string)
    requires Rectangular(rows) && (reach == 2 || reach == 3) && Fits(rows, p, d, reach)
    ensures |word| == reach + 1
  {
    if reach == 2 then [Letter(rows, p, d, 0), Letter(rows, p, d, 1), Letter(rows, p, d, 2)]
    else [Letter(rows, p, d, 0), Letter(rows, p, d, 1), Letter(rows, p, d, 2), Letter(rows, p, d, 3)]
  }

  /** The bounds test calcStarList and calcMasList make before reading
      `reach` steps from (row, col): only the coordinates that move are
      tested. */
  predicate OutOfReach(d: Direction, row: int, col: int, h: int, w: int, reach: int)
  {
    match d
    case N => row - reach < 0
    case NE => row - reach < 0 || col + reach >= w
    case E => col + reach >= w
    case SE => row + reach >= h || col + reach >= w
    case S => row + reach >= h
    case SW => row + reach >= h || col - reach < 0
    case W => col - reach < 0
    case NW => row - reach < 0 || col - reach < 0
  }

  /** From a cell on the grid, the test fails exactly when the word fits. */
  lemma OutOfReachMeans(rows: seq<string>, row: int, col: int, d: Direction, reach: nat)
    requires InGrid(rows, (row, col))
    ensures OutOfReach(d, row, col, |rows|, |rows[0]|, reach) <==> !Fits(rows, (row, col), d, reach)
  {
  }

  /** A star list entry is empty, or a word whose letters all fit on the
      grid from its cell in its direction. */
  predicate LengthFits(rows: seq<string>, p: (int, int), d: Direction, s: string)
  {
    s == "" || Fits(rows, p, d, |s| - 1)
  }

  // ------------------------------------------------------------ the cells

  /** value: the cell's letter; starList: a word per direction. */
  datatype Cell = Cell(value: char, starList: map<Direction, string>)

  /** The star list has an entry for d, and it holds a word that fits on
      the grid (or nothing). */
  predicate EntryFits(rows: seq<string>, p: (int, int), d: Direction, stars: map<Direction, string>)
  {
    d in stars && LengthFits(rows, p, d, stars[d])
  }

  /** The directions a pass writes: all of them, or only the diagonals. */
  predicate Chosen(d: Direction, diagonalsOnly: bool)
  {
    !diagonalsOnly || IsDiagonal(d)
  }

  /** `after` is the star list `before` after one pass over its cell: each
      chosen direction whose word of reach + 1 letters fits holds that word,
      every other entry is kept. calcStarList is the pass with reach 3 over
      all directions, calcMasList the one with reach 2 over the diagonals. */
  predicate Respelled(rows: seq<string>, p: (int, int), before: map<Direction, string>,
                      after: map<Direction, string>, reach: nat, diagonalsOnly: bool)
    requires Rectangular(rows) && (reach == 2 || reach == 3)
  {
    forall d :: d in after &&
      if Chosen(d, diagonalsOnly) && Fits(rows, p, d, reach) then after[d] == Word(rows, p, d, reach)
      else d in before && after[d] == before[d]
  }

  /** The star list part way through a pass: the first k directions of
      Compass are done, the others hold what they held before. */
  predicate PassedUpTo(rows: seq<string>, p: (int, int), before: map<Direction, string>,
                       stars: map<Direction, string>, reach: nat, diagonalsOnly: bool, k: nat)
    requires Rectangular(rows) && (reach == 2 || reach == 3)
  {
    forall d :: d in stars &&
      if Rank(d) < k && Chosen(d, diagonalsOnly) && Fits(rows, p, d, reach) then stars[d] == Word(rows, p, d, reach)
      else d in before && stars[d] == before[d]
  }

  /** Before the first direction nothing has changed. */
  lemma PassedNone(rows: seq<string>, p: (int, int), before: map<Direction, string>, reach: nat, diagonalsOnly: bool)
    requires Rectangular(rows) && (reach == 2 || reach == 3) && forall d :: d in before
    ensures PassedUpTo(rows, p, before, before, reach, diagonalsOnly, 0)
  {
  }

  /** Doing direction Compass[k] takes the pass one direction further. */
  lemma {:induction false} PassedStep(rows: seq<string>, p: (int, int), before: map<Direction, string>,
                                      stars: map<Direction, string>, next: map<Direction, string>,
                                      reach: nat, diagonalsOnly: bool, k: nat)
    requires Rectangular(rows) && (reach == 2 || reach == 3) && k < |Compass|
    requires PassedUpTo(rows, p, before, stars, reach, diagonalsOnly, k)
    requires next == if Chosen(Compass[k], diagonalsOnly) && Fits(rows, p, Compass[k], reach)
                     then stars[Compass[k] := Word(rows, p, Compass[k], reach)] else stars
    ensures PassedUpTo(rows, p, before, next, reach, diagonalsOnly, k + 1)
  {
    RankOf(k);
    var e := Compass[k];
    forall d
      ensures d in next &&
        if Rank(d) < k + 1 && Chosen(d, diagonalsOnly) && Fits(rows, p, d, reach) then next[d] == Word(rows, p, d, reach)
        else d in before && next[d] == before[d]
    {
      if d != e {
        assert Rank(d) != k;
        assert next[d] == stars[d];
      }
    }
  }

  /** A pass that has done every direction is the whole pass. */
  lemma PassedAll(rows: seq<string>, p: (int, int), before: map<Direction, string>,
                  stars: map<Direction, string>, reach: nat, diagonalsOnly: bool)
    requires Rectangular(rows) && (reach == 2 || reach == 3)
    requires PassedUpTo(rows, p, before, stars, reach, diagonalsOnly, |Compass|)
    ensures Respelled(rows, p, before, stars, reach, diagonalsOnly)
  {
  }

  /** If the pass of this reach writes d and the word fits, the entry
      holds that word. */
  predicate EntrySpelled(rows: seq<string>, p: (int, int), d: Direction, stars: map<Direction, string>,
                         reach: nat, diagonalsOnly: bool)
    requires Rectangular(rows) && (reach == 2 || reach == 3)
  {
    Chosen(d, diagonalsOnly) && Fits(rows, p, d, reach) ==> d in stars && stars[d] == Word(rows, p, d, reach)
  }

  /** A pass keeps every entry fitting and leaves each one spelled for that
      pass. */
  lemma RespelledFacts(rows: seq<string>, p: (int, int), stars: map<Direction, string>, after: map<Direction, string>,
                       reach: nat, diagonalsOnly: bool)
    requires Rectangular(rows) && (reach == 2 || reach == 3)
    requires forall d :: EntryFits(rows, p, d, stars)
    requires Respelled(rows, p, stars, after, reach, diagonalsOnly)
    ensures forall d :: EntryFits(rows, p, d, after)
    ensures forall d :: EntrySpelled(rows, p, d, after, reach, diagonalsOnly)
  {
    forall d
      ensures EntryFits(rows, p, d, after) && EntrySpelled(rows, p, d, after, reach, diagonalsOnly)
    {
      assert EntryFits(rows, p, d, stars);
      if Chosen(d, diagonalsOnly) && Fits(rows, p, d, reach) {
        assert after[d] == Word(rows, p, d, reach);
      } else {
        assert after[d] == stars[d];
      }
    }
  }

  // ---------------------------------------------------------------- part 1

  /** The four letters from p in direction d read "XMAS". */
  predicate XmasAt(rows: seq<string>, p: (int, int), d: Direction)
  {
    Rectangular(rows) && Fits(rows, p, d, 3) && Word(rows, p, d, 3) == "XMAS"
  }

  /** Number of the first k directions of Compass in which p reads "XMAS". */
  function DirsXmas(rows: seq<string>, p: (int, int), k: nat): nat
    requires k <= |Compass|
  {
    if k == 0 then 0 else DirsXmas(rows, p, k - 1) + (if XmasAt(rows, p, Compass[k - 1]) then 1 else 0)
  }

  function RowXmas(rows: seq<string>, j: int, n: nat): nat
  {
    if n == 0 then 0 else RowXmas(rows, j, n - 1) + DirsXmas(rows, (j, n - 1), |Compass|)
  }

  /** Number of (cell, direction) pairs of the first m lines that read "XMAS". */
  function GridXmas(rows: seq<string>, m: nat): nat
    requires m <= |rows|
  {
    if m == 0 then 0 else GridXmas(rows, m - 1) + RowXmas(rows, m - 1, |rows[0]|)
  }

  /** Once the four-letter pass has run, an entry reads "XMAS" exactly when
      the grid does. */
  lemma StarIsXmas(rows: seq<string>, p: (int, int), d: Direction, s: string)
    requires Rectangular(rows) && LengthFits(rows, p, d, s)
    requires Fits(rows, p, d, 3) ==> s == Word(rows, p, d, 3)
    ensures s == "XMAS" <==> XmasAt(rows, p, d)
  {
  }

  /** Every "XMAS" is also a "SAMX" read back from its last letter, so each
      occurrence is found once from each end. */
  lemma XmasReadBackwards(rows: seq<string>, p: (int, int), d: Direction)
    requires Rectangular(rows) && Fits(rows, p, d, 3)
    ensures Fits(rows, Walk(p, d, 3), Opposite(d), 3)
    ensures XmasAt(rows, p, d) <==> Word(rows, Walk(p, d, 3), Opposite(d), 3) == "SAMX"
  {
    var q := Walk(p, d, 3);
    WalkBack(p, d, 3);
    forall k | 0 <= k < 4
      ensures Letter(rows, q, Opposite(d), k) == Letter(rows, p, d, 3 - k)
    {
      assert Walk(q, Opposite(d), k) == Walk(p, d, 3 - k);
    }
  }

  // ---------------------------------------------------------------- part 2

  /** The three letters from q in direction d read "MAS". */
  predicate MasAt(rows: seq<string>, q: (int, int), d: Direction)
  {
    Rectangular(rows) && Fits(rows, q, d, 2) && Word(rows, q, d, 2) == "MAS"
  }

  /** foundMas in part2: how many of the four diagonal neighbours of p
      read "MAS" inwards, through p. */
  function CornerCount(rows: seq<string>, row: int, col: int): (n: nat)
    ensures n <= 4
  {
    (if MasAt(rows, (row - 1, col - 1), SE) then 1 else 0) + (if MasAt(rows, (row - 1, col + 1), SW) then 1 else 0) +
    (if MasAt(rows, (row + 1, col - 1), NE) then 1 else 0) + (if MasAt(rows, (row + 1, col + 1), NW) then 1 else 0)
  }

  /** CornerCount from what each corner reads. */
  lemma CornerCountOf(rows: seq<string>, row: int, col: int, nw: bool, ne: bool, sw: bool, se: bool)
    requires nw == MasAt(rows, (row - 1, col - 1), SE) && ne == MasAt(rows, (row - 1, col + 1), SW)
    requires sw == MasAt(rows, (row + 1, col - 1), NE) && se == MasAt(rows, (row + 1, col + 1), NW)
    ensures CornerCount(rows, row, col) == (if nw then 1 else 0) + (if ne then 1 else 0) + (if sw then 1 else 0) + (if se then 1 else 0)
  {
  }

  /** An 'A' with at least two "MAS" corners. */
  predicate CrossAt(rows: seq<string>, p: (int, int))
  {
    Rectangular(rows) && InGrid(rows, p) && rows[p.0][p.1] == 'A' && CornerCount(rows, p.0, p.1) >= 2
  }

  function RowCross(rows: seq<string>, j: int, n: nat): nat
  {
    if n == 0 then 0 else RowCross(rows, j, n - 1) + (if CrossAt(rows, (j, n - 1)) then 1 else 0)
  }

  /** Number of cells of the first m lines counted by part 2. */
  function GridCross(rows: seq<string>, m: nat): nat
    requires m <= |rows|
  {
    if m == 0 then 0 else GridCross(rows, m - 1) + RowCross(rows, m - 1, |rows[0]|)
  }

  /** One 'M' and one 'S'. */
  predicate MandS(a: char, b: char)
  {
    (a == 'M' && b == 'S') || (a == 'S' && b == 'M')
  }

  /** Opposite corners cannot both read "MAS" (one would need an 'M' where
      the other needs an 'S'), so foundMas never exceeds two. */
  lemma {:induction false} CornerCountAtMostTwo(rows: seq<string>, p: (int, int))
    requires Rectangular(rows)
    ensures CornerCount(rows, p.0, p.1) <= 2
  {
    NoMasBothWays(rows, (p.0 - 1, p.1 - 1), SE);
    NoMasBothWays(rows, (p.0 - 1, p.1 + 1), SW);
  }

  /** "MAS" cannot be read both ways between the same two cells. */
  lemma NoMasBothWays(rows: seq<string>, q: (int, int), d: Direction)
    requires Rectangular(rows)
    ensures !(MasAt(rows, q, d) && MasAt(rows, Walk(q, d, 2), Opposite(d)))
  {
    if MasAt(rows, q, d) {
      var r := Walk(q, d, 2);
      assert rows[r.0][r.1] == Word(rows, q, d, 2)[2] == 'S';
      assert Walk(r, Opposite(d), 0) == r;
    }
  }

  /** Reading "MAS" is reading 'M', 'A' and 'S' one step apart. */
  lemma MasLetters(rows: seq<string>, q: (int, int), d: Direction)
    requires Rectangular(rows)
    ensures MasAt(rows, q, d) <==>
              Fits(rows, q, d, 2) && Letter(rows, q, d, 0) == 'M' && Letter(rows, q, d, 1) == 'A' &&
              Letter(rows, q, d, 2) == 'S'
  {
    if Fits(rows, q, d, 2) {
      var word := Word(rows, q, d, 2);
      if Letter(rows, q, d, 0) == 'M' && Letter(rows, q, d, 1) == 'A' && Letter(rows, q, d, 2) == 'S' {
        assert word == "MAS";
      }
    }
  }

  /** Part 2 counts exactly the X-shaped "MAS" pairs: an 'A' off the border
      whose two diagonals each hold one 'M' and one 'S'. */
  lemma CrossIsXShape(rows: seq<string>, p: (int, int))
    requires Rectangular(rows)
    ensures CrossAt(rows, p) <==>
              1 <= p.0 < |rows| - 1 && 1 <= p.1 < |rows[0]| - 1 && rows[p.0][p.1] == 'A' &&
              MandS(rows[p.0 - 1][p.1 - 1], rows[p.0 + 1][p.1 + 1]) &&
              MandS(rows[p.0 - 1][p.1 + 1], rows[p.0 + 1][p.1 - 1])
  {
    CornerCountAtMostTwo(rows, p);
    MasLetters(rows, (p.0 - 1, p.1 - 1), SE);
    MasLetters(rows, (p.0 - 1, p.1 + 1), SW);
    MasLetters(rows, (p.0 + 1, p.1 - 1), NE);
    MasLetters(rows, (p.0 + 1, p.1 + 1), NW);
  }

  /** A corner off the grid reads nothing. */
  lemma OffGridNoMas(rows: seq<string>, q: (int, int), d: Direction)
    requires !InGrid(rows, q)
    ensures !MasAt(rows, q, d)
  {
  }

  /** Once the diagonal pass has run, the entry a corner reads is "MAS"
      exactly when the grid reads "MAS" there. */
  lemma StarIsMas(rows: seq<string>, q: (int, int), d: Direction, s: string)
    requires Rectangular(rows) && IsDiagonal(d) && LengthFits(rows, q, d, s)
    requires Fits(rows, q, d, 2) ==> s == Word(rows, q, d, 2)
    ensures s == "MAS" <==> MasAt(rows, q, d)
  {
  }

  // ----------------------------------------------------------- the matrix

  /** The cell matrix of getCellMatrix. */
  class CellMatrix {
    /** The input lines. */
    const rows: seq<string>
    /** cells[row, col] is the cell of line row, column col. */
    const cells: array2<Cell>

    predicate Shaped()
      reads this
    {
      Rectangular(rows) && cells.Length0 == |rows| && cells.Length1 == |rows[0]|
    }

    /** Every cell keeps its letter and a word that fits, or nothing, per
        direction. */
    ghost predicate Valid()
      reads this, cells
    {
      Shaped() &&
      (forall j, i {:trigger cells[j, i]} :: 0 <= j < cells.Length0 && 0 <= i < cells.Length1 ==> cells[j, i].value == rows[j][i]) &&
      (forall j, i, d :: 0 <= j < cells.Length0 && 0 <= i < cells.Length1 ==>
         EntryFits(rows, (j, i), d, cells[j, i].starList))
    }

    /** Every cell has been through the pass of this reach. */
    ghost predicate AllSpelled(reach: nat, diagonalsOnly: bool)
      reads this, cells
      requires Shaped() && (reach == 2 || reach == 3)
    {
      forall j, i, d :: 0 <= j < cells.Length0 && 0 <= i < cells.Length1 ==>
        EntrySpelled(rows, (j, i), d, cells[j, i].starList, reach, diagonalsOnly)
    }

    /** getCellMatrix: one cell per character, each with an empty word for
        every direction. */
    constructor (input: string)
      requires Rectangular(Split(input, "\n"))
      ensures rows == Split(input, "\n") && Shaped() && fresh(cells)
      ensures forall j, i :: 0 <= j < cells.Length0 && 0 <= i < cells.Length1 ==> cells[j, i].value == rows[j][i]
      ensures forall j, i, d :: 0 <= j < cells.Length0 && 0 <= i < cells.Length1 ==>
                d in cells[j, i].starList && cells[j, i].starList[d] == ""
      ensures Valid()
    {
      var inputRows := Split(input, "\n");
      rows := inputRows;
      var blank := BlankStarList();
      cells := new Cell[|inputRows|, |inputRows[0]|]((row, col) reads {} =>
        if 0 <= row < |inputRows| && 0 <= col < |inputRows[row]| then Cell(inputRows[row][col], blank)
        else Cell(' ', blank));
    }

    /** The map getCellMatrix gives each cell: "" for every direction. */
    static method BlankStarList() returns (starList: map<Direction, string>)
      ensures forall d :: d in starList && starList[d] == ""
    {
      starList := map[];
      for k := 0 to |Compass|
        invariant forall d :: (d in starList <==> Rank(d) < k) && (d in starList ==> starList[d] == "")
      {
        starList := starList[Compass[k] := ""];
      }
    }

    /** Stores one word that fits. */
    method SetStar(row: int, col: int, d: Direction, word: string)
      requires Valid() && InGrid(rows, (row, col))
      requires |word| >= 1 && Fits(rows, (row, col), d, |word| - 1)
      modifies cells
      ensures Valid()
      ensures forall j, i :: 0 <= j < cells.Length0 && 0 <= i < cells.Length1 ==>
                cells[j, i] == if j == row && i == col then old(cells[j, i]).(starList := old(cells[j, i]).starList[d := word])
                               else old(cells[j, i])
    {
      var cell := cells[row, col];
      cells[row, col] := cell.(starList := cell.starList[d := word]);
      forall e
        ensures EntryFits(rows, (row, col), e, cells[row, col].starList)
      {
        assert EntryFits(rows, (row, col), e, cell.starList);
      }
    }

    /** The letters from (row, col) to `reach` steps on in direction d,
        concatenated as calcStarList (reach 3) and calcMasList (reach 2) do. */
    method ReadWord(row: int, col: int, d: Direction, reach: nat) returns (word: string)
      requires Valid() && (reach == 2 || reach == 3) && Fits(rows, (row, col), d, reach)
      ensures word == Word(rows, (row, col), d, reach)
    {
      var p1, p2 := Walk((row, col), d, 1), Walk((row, col), d, 2);
      word := [cells[row, col].value] + [cells[p1.0, p1.1].value] + [cells[p2.0, p2.1].value];
      if reach == 3 {
        var p3 := Walk((row, col), d, 3);
        word := word + [cells[p3.0, p3.1].value];
      }
    }

    /** calcStarList: every direction in which three more letters fit gets
        the four-letter word from (row, col); nothing else changes. */
    method CalcStarList(row: int, col: int)
      requires Valid() && InGrid(rows, (row, col))
      modifies cells
      ensures Valid()
      ensures forall j, i :: 0 <= j < cells.Length0 && 0 <= i < cells.Length1 && (j != row || i != col) ==>
                cells[j, i] == old(cells[j, i])
      ensures cells[row, col].value == old(cells[row, col].value)
      ensures Respelled(rows, (row, col), old(cells[row, col].starList), cells[row, col].starList, 3, false)
      ensures forall d :: EntrySpelled(rows, (row, col), d, cells[row, col].starList, 3, false)
    {
      Pass(row, col, 3, false);
    }

    /** calcMasList: every diagonal in which two more letters fit gets the
        three-letter word from (row, col); the N, E, S and W entries and
        every other cell are untouched. */
    method CalcMasList(row: int, col: int)
      requires Valid() && InGrid(rows, (row, col))
      modifies cells
      ensures Valid()
      ensures forall j, i :: 0 <= j < cells.Length0 && 0 <= i < cells.Length1 && (j != row || i != col) ==>
                cells[j, i] == old(cells[j, i])
      ensures cells[row, col].value == old(cells[row, col].value)
      ensures Respelled(rows, (row, col), old(cells[row, col].starList), cells[row, col].starList, 2, true)
      ensures forall d :: EntrySpelled(rows, (row, col), d, cells[row, col].starList, 2, true)
    {
      Pass(row, col, 2, true);
    }

    /** The loop over CompassDirections shared by calcStarList (reach 3, every
        direction) and calcMasList (reach 2, the diagonals; the others are
        skipped with `continue`). */
    method Pass(row: int, col: int, reach: nat, diagonalsOnly: bool)
      requires Valid() && InGrid(rows, (row, col)) && (reach == 2 || reach == 3)
      modifies cells
      ensures Valid()
      ensures forall j, i :: 0 <= j < cells.Length0 && 0 <= i < cells.Length1 && (j != row || i != col) ==>
                cells[j, i] == old(cells[j, i])
      ensures cells[row, col].value == old(cells[row, col].value)
      ensures Respelled(rows, (row, col), old(cells[row, col].starList), cells[row, col].starList, reach, diagonalsOnly)
      ensures forall d :: EntrySpelled(rows, (row, col), d, cells[row, col].starList, reach, diagonalsOnly)
    {
      ghost var before := cells[row, col];
      forall d ensures d in before.starList {
        assert EntryFits(rows, (row, col), d, before.starList);
      }
      PassedNone(rows, (row, col), before.starList, reach, diagonalsOnly);
      for k := 0 to |Compass|
        invariant Valid()
        invariant forall j, i :: 0 <= j < cells.Length0 && 0 <= i < cells.Length1 && (j != row || i != col) ==>
                    cells[j, i] == old(cells[j, i])
        invariant cells[row, col].value == before.value
        invariant PassedUpTo(rows, (row, col), before.starList, cells[row, col].starList, reach, diagonalsOnly, k)
      {
        ghost var stars := cells[row, col].starList;
        PassDirection(row, col, Compass[k], reach, diagonalsOnly);
        PassedStep(rows, (row, col), before.starList, stars, cells[row, col].starList, reach, diagonalsOnly, k);
      }
      PassedAll(rows, (row, col), before.starList, cells[row, col].starList, reach, diagonalsOnly);
      RespelledFacts(rows, (row, col), before.starList, cells[row, col].starList, reach, diagonalsOnly);
    }

    /** The body of the loop over CompassDirections for one direction: the
        bounds test, then the word read and stored. */
    method PassDirection(row: int, col: int, compassDirection: Direction, reach: nat, diagonalsOnly: bool)
      requires Valid() && InGrid(rows, (row, col)) && (reach == 2 || reach == 3)
      modifies cells
      ensures Valid()
      ensures forall j, i :: 0 <= j < cells.Length0 && 0 <= i < cells.Length1 && (j != row || i != col) ==>
                cells[j, i] == old(cells[j, i])
      ensures cells[row, col] ==
                var stars := old(cells[row, col].starList);
                old(cells[row, col]).(starList :=
                  if Chosen(compassDirection, diagonalsOnly) && Fits(rows, (row, col), compassDirection, reach)
                  then stars[compassDirection := Word(rows, (row, col), compassDirection, reach)] else stars)
    {
      OutOfReachMeans(rows, row, col, compassDirection, reach);
      if Chosen(compassDirection, diagonalsOnly) &&
         !OutOfReach(compassDirection, row, col, cells.Length0, cells.Length1, reach) {
        var word := ReadWord(row, col, compassDirection, reach);
        SetStar(row, col, compassDirection, word);
      }
    }

    /** The first loop of part1 (calcStarList, reach 3) or of part2
        (calcMasList, reach 2) over one line. */
    method StarLine(row: int, reach: nat, diagonalsOnly: bool)
      requires Valid() && 0 <= row < cells.Length0 && (reach == 2 || reach == 3) && diagonalsOnly == (reach == 2)
      modifies cells
      ensures Valid()
      ensures forall j, i :: 0 <= j < cells.Length0 && 0 <= i < cells.Length1 && j != row ==>
                cells[j, i] == old(cells[j, i])
      ensures forall i, d :: 0 <= i < cells.Length1 ==>
                EntrySpelled(rows, (row, i), d, cells[row, i].starList, reach, diagonalsOnly)
    {
      for col := 0 to cells.Length1
        invariant Valid()
        invariant forall j, i :: 0 <= j < cells.Length0 && 0 <= i < cells.Length1 && (j != row || col <= i) ==>
                    cells[j, i] == old(cells[j, i])
        invariant forall i, d :: 0 <= i < col ==>
                    EntrySpelled(rows, (row, i), d, cells[row, i].starList, reach, diagonalsOnly)
      {
        if reach == 3 {
          CalcStarList(row, col);
        } else {
          CalcMasList(row, col);
        }
      }
    }

    /** Runs one pass over every cell, line by line. */
    method StarAll(reach: nat, diagonalsOnly: bool)
      requires Valid() && (reach == 2 || reach == 3) && diagonalsOnly == (reach == 2)
      modifies cells
      ensures Valid() && AllSpelled(reach, diagonalsOnly)
    {
      for row := 0 to cells.Length0
        invariant Valid()
        invariant forall j, i, d :: 0 <= j < row && 0 <= i < cells.Length1 ==>
                    EntrySpelled(rows, (j, i), d, cells[j, i].starList, reach, diagonalsOnly)
      {
        StarLine(row, reach, diagonalsOnly);
      }
    }

    /** part1: fills every star list with four-letter words, then counts
        the entries that read "XMAS". */
    method Part1() returns (xmasCount: nat)
      requires Valid()
      modifies cells
      ensures Valid() && AllSpelled(3, false)
      ensures xmasCount == GridXmas(rows, |rows|)
    {
      StarAll(3, false);
      xmasCount := 0;
      for row := 0 to cells.Length0
        invariant Valid() && AllSpelled(3, false)
        invariant xmasCount == GridXmas(rows, row)
      {
        var lineCount := LineXmas(row);
        xmasCount := xmasCount + lineCount;
      }
    }

    /** The counting loop of part1 over one line. */
    method LineXmas(row: int) returns (count: nat)
      requires Valid() && AllSpelled(3, false) && 0 <= row < cells.Length0
      ensures count == RowXmas(rows, row, |rows[0]|)
    {
      count := 0;
      for col := 0 to cells.Length1
        invariant count == RowXmas(rows, row, col)
      {
        var cellCount := CellXmas(row, col);
        count := count + cellCount;
      }
    }

    /** The loop of part1 over the star list of one cell. */
    method CellXmas(row: int, col: int) returns (count: nat)
      requires Valid() && AllSpelled(3, false) && InGrid(rows, (row, col))
      ensures count == DirsXmas(rows, (row, col), |Compass|)
    {
      count := 0;
      var starList := cells[row, col].starList;
      for k := 0 to |Compass|
        invariant count == DirsXmas(rows, (row, col), k)
      {
        assert EntryFits(rows, (row, col), Compass[k], starList);
        assert EntrySpelled(rows, (row, col), Compass[k], starList, 3, false);
        StarIsXmas(rows, (row, col), Compass[k], starList[Compass[k]]);
        if starList[Compass[k]] == "XMAS" {
          count := count + 1;
        }
      }
    }

    /** part2: rewrites the diagonals with three-letter words, then counts
        the 'A' cells with at least two corners reading "MAS". */
    method Part2() returns (masCount: nat)
      requires Valid()
      modifies cells
      ensures Valid() && AllSpelled(2, true)
      ensures masCount == GridCross(rows, |rows|)
    {
      StarAll(2, true);
      masCount := 0;
      for row := 0 to cells.Length0
        invariant Valid() && AllSpelled(2, true)
        invariant masCount == GridCross(rows, row)
      {
        var lineCount := LineCross(row);
        masCount := masCount + lineCount;
      }
    }

    /** The counting loop of part2 over one line. */
    method LineCross(row: int) returns (count: nat)
      requires Valid() && AllSpelled(2, true) && 0 <= row < cells.Length0
      ensures count == RowCross(rows, row, |rows[0]|)
    {
      count := 0;
      for col := 0 to cells.Length1
        invariant count == RowCross(rows, row, col)
      {
        if cells[row, col].value == 'A' {
          var foundMas := CornerWords(row, col);
          if foundMas >= 2 {
            count := count + 1;
          }
        }
      }
    }

    /** The corner words part2 reads around (row, col), and how many of them
        are "MAS". */
    method CornerWords(row: int, col: int) returns (foundMas: nat)
      requires Valid() && AllSpelled(2, true) && InGrid(rows, (row, col))
      ensures foundMas == CornerCount(rows, row, col)
    {
      var nwWord := CornerEntry(row - 1, col - 1, SE);
      var neWord := CornerEntry(row - 1, col + 1, SW);
      var swWord := CornerEntry(row + 1, col - 1, NE);
      var seWord := CornerEntry(row + 1, col + 1, NW);
      CornerCountOf(rows, row, col, nwWord == "MAS", neWord == "MAS", swWord == "MAS", seWord == "MAS");
      foundMas := CountMas(nwWord, neWord, swWord, seWord);
    }

    /** The four tests of part2 that add up foundMas. */
    static method CountMas(nwWord: string, neWord: string, swWord: string, seWord: string) returns (foundMas: nat)
      ensures foundMas == (if nwWord == "MAS" then 1 else 0) + (if neWord == "MAS" then 1 else 0) +
                          (if swWord == "MAS" then 1 else 0) + (if seWord == "MAS" then 1 else 0)
    {
      foundMas := 0;
      if nwWord == "MAS" {
        foundMas := foundMas + 1;
      }
      if neWord == "MAS" {
        foundMas := foundMas + 1;
      }
      if swWord == "MAS" {
        foundMas := foundMas + 1;
      }
      if seWord == "MAS" {
        foundMas := foundMas + 1;
      }
    }

    /** The diagonal entry part2 reads from the corner cell (r, c), or ""
        when the corner is off the grid. Around a cell on the grid, part2's
        two bound checks per corner are exactly this test. */
    method CornerEntry(r: int, c: int, d: Direction) returns (word: string)
      requires Valid() && AllSpelled(2, true) && IsDiagonal(d)
      ensures word == "MAS" <==> MasAt(rows, (r, c), d)
    {
      word := "";
      if 0 <= r < cells.Length0 && 0 <= c < cells.Length1 {
        assert EntryFits(rows, (r, c), d, cells[r, c].starList);
        assert EntrySpelled(rows, (r, c), d, cells[r, c].starList, 2, true);
        word := cells[r, c].starList[d];
        StarIsMas(rows, (r, c), d, word);
      } else {
        OffGridNoMas(rows, (r, c), d);
      }
    }
  }

  /** Day4: part 1 and then part 2 on the same cell matrix. */
  method Day4(input: string) returns (xmasCount: nat, masCount: nat)
    requires Rectangular(Split(input, "\n"))
    ensures xmasCount == GridXmas(Split(input, "\n"), |Split(input, "\n")|)
    ensures masCount == GridCross(Split(input, "\n"), |Split(input, "\n")|)
  {
    var cellMatrix := new CellMatrix(input);
    xmasCount := cellMatrix.Part1();
    masCount := cellMatrix.Part2();
  }
}
