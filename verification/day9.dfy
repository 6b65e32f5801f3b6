/** Day 9: a disk map. The input is a string of digits that alternate between
    file lengths (even positions) and free-space lengths (odd positions); the
    k-th file gets ID k. The disk is a list of cells holding a file ID or -1
    for free space. One compaction pass walks the file IDs from the highest
    down and moves each whole file to the first free run that fits it, if that
    run lies before the file. The checksum sums ID * position over the file
    cells. */
module Day9 {
  import opened GoText

  const Empty: int := -1

  /** strconv.Atoi of a one-character string: a digit gives its value, any
      other character an error whose value 0 is used as is. */
  function DigitOrZero(c: char): (d: nat)
    ensures d < 10
    ensures IsDigit(c) ==> d == DigitValue(c)
  {
    if IsDigit(c) then DigitValue(c) else 0
  }

  /** n copies of x. */
  function Repeat(x: int, n: nat): (r: seq<int>)
    ensures |r| == n
    ensures forall i :: 0 <= i < n ==> r[i] == x
  {
    if n == 0 then [] else Repeat(x, n - 1) + [x]
  }

  /** What a descriptor digit at index i lays down: file i/2 at even indices,
      free space at odd ones. */
  function CellOfIndex(i: nat): int
  {
    if i % 2 == 0 then i / 2 else Empty
  }

  /** The disk described by the input, digit by digit. */
  function Layout(input: string): seq<int>
  {
    if |input| == 0 then []
    else
      var j := |input| - 1;
      Layout(input[..j]) + Repeat(CellOfIndex(j), DigitOrZero(input[j]))
  }

  function DigitSum(input: string): nat
  {
    if |input| == 0 then 0 else DigitSum(input[..|input| - 1]) + DigitOrZero(input[|input| - 1])
  }

  /** The disk is as long as the digits add up to. */
  lemma {:induction false} LayoutLength(input: string)
    ensures |Layout(input)| == DigitSum(input)
  {
    if |input| > 0 {
      LayoutLength(input[..|input| - 1]);
    }
  }

  /** File k occupies exactly as many cells as the digit at index 2k says,
      and IDs beyond the input occupy none. */
  lemma {:induction false} LayoutFileCount(input: string, k: nat)
    ensures multiset(Layout(input))[k] == if 2 * k < |input| then DigitOrZero(input[2 * k]) else 0
  {
    if |input| > 0 {
      var j := |input| - 1;
      var init := input[..j];
      LayoutFileCount(init, k);
      var cell, d := CellOfIndex(j), DigitOrZero(input[j]);
      var tail := Repeat(cell, d);
      assert Layout(input) == Layout(init) + tail;
      assert multiset(Layout(input))[k] == multiset(Layout(init))[k] + multiset(tail)[k];
      RepeatCount(cell, d, k);
      CellOfIndexIs(j, k);
      if 2 * k < j {
        assert init[2 * k] == input[2 * k];
      }
    }
  }

  /** Descriptor index i lays down file k exactly when i == 2k. */
  lemma CellOfIndexIs(i: nat, k: nat)
    ensures CellOfIndex(i) == k <==> i == 2 * k
  {
    assert i == 2 * (i / 2) + i % 2;
  }

  lemma {:induction false} RepeatCount(x: int, n: nat, y: int)
    ensures multiset(Repeat(x, n))[y] == if x == y then n else 0
  {
    if n > 0 {
      RepeatCount(x, n - 1, y);
      assert multiset(Repeat(x, n)) == multiset(Repeat(x, n - 1)) + multiset{x};
    }
  }

  /** Every cell of a fresh layout is free or holds an ID of a file digit. */
  lemma {:induction false} LayoutCells(input: string)
    ensures forall c :: c in Layout(input) ==> c == Empty || (0 <= c && 2 * c < |input|)
  {
    if |input| > 0 {
      var j := |input| - 1;
      LayoutCells(input[..j]);
      var tail := Repeat(CellOfIndex(j), DigitOrZero(input[j]));
      forall c | c in Layout(input)
        ensures c == Empty || (0 <= c && 2 * c < |input|)
      {
        if c !in Layout(input[..j]) {
          assert c in tail;
        }
      }
    }
  }

  /** Index of the first cell holding `id`, or -1. */
  function FirstPosition(s: seq<int>, id: int): (p: int)
    ensures -1 <= p < |s|
    ensures p == -1 <==> id !in s
    ensures p >= 0 ==> s[p] == id && id !in s[..p]
  {
    if |s| == 0 then -1
    else if s[0] == id then 0
    else
      var p := FirstPosition(s[1..], id);
      if p == -1 then
        assert s == [s[0]] + s[1..];
        -1
      else
        assert s[..p + 1] == [s[0]] + s[1..][..p];
        p + 1
  }

  /** End (exclusive) of the run of `id` cells that starts at p. */
  function RunEnd(s: seq<int>, p: nat, id: int): (e: nat)
    requires p <= |s|
    decreases |s| - p
    ensures p <= e <= |s|
    ensures forall k :: p <= k < e ==> s[k] == id
    ensures e == |s| || s[e] != id
  {
    if p == |s| || s[p] != id then p else RunEnd(s, p + 1, id)
  }

  lemma {:induction false} RunEndAt(s: seq<int>, p: nat, q: nat, id: int)
    requires p <= q <= |s|
    requires forall k :: p <= k < q ==> s[k] == id
    requires q == |s| || s[q] != id
    ensures RunEnd(s, p, id) == q
    decreases q - p
  {
    if p < q {
      RunEndAt(s, p + 1, q, id);
    }
  }

  /** p starts a maximal run of free cells. */
  predicate IsFreeRunStart(s: seq<int>, p: int)
  {
    0 <= p < |s| && s[p] == Empty && (p == 0 || s[p - 1] != Empty)
  }

  /** The free run starting at p is closed by a file cell. */
  predicate ClosedFreeRun(s: seq<int>, p: nat)
    requires p <= |s|
  {
    RunEnd(s, p, Empty) < |s|
  }

  /** The free run starting at p can take a file of fileLength cells in the
      sense of getFirstEmptyPositionByLength: it is closed by a file cell and
      long enough, or it runs to the end of the disk, whatever its length. */
  predicate Fits(s: seq<int>, p: int, fileLength: int)
  {
    IsFreeRunStart(s, p) && (ClosedFreeRun(s, p) ==> RunEnd(s, p, Empty) - p >= fileLength)
  }

  /** The first run at or after p that fits, or -1. */
  function FitFrom(s: seq<int>, fileLength: int, p: nat): (r: int)
    requires p <= |s|
    decreases |s| - p
    ensures r == Empty || (p <= r < |s| && Fits(s, r, fileLength))
    ensures forall q :: p <= q < (if r == Empty then |s| else r) ==> !Fits(s, q, fileLength)
  {
    if p == |s| then Empty
    else if Fits(s, p, fileLength) then p
    else FitFrom(s, fileLength, p + 1)
  }

  /** The start of the first free run that fits a file of fileLength cells,
      or -1 when none does. */
  function FirstFit(s: seq<int>, fileLength: int): (r: int)
  {
    FitFrom(s, fileLength, 0)
  }

  /** The length of the first run of `id`, 0 when the ID is absent. */
  function FileLength(s: seq<int>, id: int): (n: nat)
    ensures n == 0 <==> id !in s
    ensures n > 0 ==> var p := FirstPosition(s, id);
                      p + n <= |s| && forall k :: p <= k < p + n ==> s[k] == id
  {
    var p := FirstPosition(s, id);
    if p == -1 then 0 else RunEnd(s, p, id) - p
  }

  /** The value of the last file cell, or -1 when every cell is free. */
  function LastFileID(s: seq<int>): (id: int)
    ensures id == Empty <==> forall k :: 0 <= k < |s| ==> s[k] == Empty
    ensures id != Empty ==> id in s
  {
    if |s| == 0 then Empty
    else if s[|s| - 1] != Empty then s[|s| - 1]
    else LastFileID(s[..|s| - 1])
  }

  /** One turn of the loop of DefragmentWholeFilesOnce for file `id`: when the
      first free run that fits the file starts before it, the first run of
      the file is copied there and its old cells are freed. */
  function DefragStep(s: seq<int>, id: int): (r: seq<int>)
  {
    var from := FirstPosition(s, id);
    var length := FileLength(s, id);
    var to := FirstFit(s, length);
    if to != Empty && to < from then Moved(s, from, to, length) else s
  }

  /** The turns for the file IDs id, id - 1, ..., 0, in that order. */
  function Defrag(s: seq<int>, id: int): seq<int>
    decreases if id < 0 then 0 else id + 1
  {
    if id < 0 then s else Defrag(DefragStep(s, id), id - 1)
  }

  /** The disk: a list of cells, each a file ID or -1 for free space. */
  class DiskMap {
    var Map: seq<int>

    /** day9NewDiskMap: lays the input's digits out cell by cell. */
    constructor (inputString: string)
      ensures Map == Layout(inputString)
    {
      Map := [];
      new;
      var fileID := 0;
      var needNewFileID := false;
      var i := 0;
      while i < |inputString|
        invariant 0 <= i <= |inputString|
        invariant Map == Layout(inputString[..i])
        invariant needNewFileID == (i > 0 && i % 2 == 0)
        invariant fileID == if needNewFileID then i / 2 - 1 else i / 2
      {
        var currentInt := DigitOrZero(inputString[i]);
        var cell: int;
        if i % 2 == 0 {
          if needNewFileID {
            fileID := fileID + 1;
            needNewFileID := false;
          }
          cell := fileID;
        } else {
          cell := Empty;
          needNewFileID := true;
        }
        var takeCtr := 0;
        while takeCtr < currentInt
          invariant 0 <= takeCtr <= currentInt
          invariant Map == Layout(inputString[..i]) + Repeat(cell, takeCtr)
        {
          Map := Map + [cell];
          takeCtr := takeCtr + 1;
        }
        assert inputString[..i + 1][..i] == inputString[..i];
        i := i + 1;
      }
      assert inputString[..i] == inputString;
    }

    /** getLastFileID: the value of the last non-free cell, or -1 when every
        cell is free. */
    method GetLastFileID() returns (lastFileID: int)
      ensures lastFileID == Empty ==> forall k :: 0 <= k < |Map| ==> Map[k] == Empty
      ensures lastFileID != Empty ==>
                exists k :: 0 <= k < |Map| && Map[k] == lastFileID
                            && forall j :: k < j < |Map| ==> Map[j] == Empty
      ensures lastFileID == LastFileID(Map)
    {
      lastFileID := Empty;
      var i := |Map| - 1;
      assert Map[..i + 1] == Map;
      while i >= 0
        invariant -1 <= i < |Map|
        invariant forall j :: i < j < |Map| ==> Map[j] == Empty
        invariant LastFileID(Map[..i + 1]) == LastFileID(Map)
      {
        assert Map[..i + 1][..i] == Map[..i];
        if Map[i] != Empty {
          lastFileID := Map[i];
          return;
        }
        i := i - 1;
      }
    }

    /** getFileLength: the length of the first run of the ID, 0 when absent. */
    method GetFileLength(fileID: int) returns (length: nat)
      ensures var p := FirstPosition(Map, fileID);
              length == if p == -1 then 0 else RunEnd(Map, p, fileID) - p
      ensures length == FileLength(Map, fileID)
    {
      length := 0;
      var foundStart := false;
      var i := 0;
      while i < |Map|
        invariant 0 <= i <= |Map|
        invariant !foundStart ==> length == 0 && fileID !in Map[..i]
        invariant foundStart ==> var p := FirstPosition(Map, fileID);
                                 0 <= p && p + length == i && length > 0
                                 && forall k :: p <= k < i ==> Map[k] == fileID
      {
        if Map[i] == fileID {
          if !foundStart {
            assert Map[..i + 1] == Map[..i] + [fileID];
            assert FirstPosition(Map, fileID) == i;
          }
          length := length + 1;
          foundStart := true;
        } else {
          if foundStart {
            RunEndAt(Map, FirstPosition(Map, fileID), i, fileID);
            return;
          }
          assert Map[..i + 1] == Map[..i] + [Map[i]];
        }
        i := i + 1;
      }
      if foundStart {
        RunEndAt(Map, FirstPosition(Map, fileID), i, fileID);
      } else {
        assert Map[..i] == Map;
      }
    }

    /** getFirstPositionByFileID: the smallest index holding the ID, or -1. */
    method GetFirstPositionByFileID(fileID: int) returns (position: int)
      ensures position == FirstPosition(Map, fileID)
    {
      var i := 0;
      while i < |Map|
        invariant 0 <= i <= |Map|
        invariant fileID !in Map[..i]
      {
        if Map[i] == fileID {
          assert FirstPosition(Map, fileID) != -1;
          return i;
        }
        assert Map[..i + 1] == Map[..i] + [Map[i]];
        i := i + 1;
      }
      assert Map[..i] == Map;
      return -1;
    }

    /** getFirstEmptyPositionByLength: the start of the first free run that is
        closed by a file cell and holds at least fileLength cells; failing
        that, the start of a free run reaching the end of the disk, whatever
        its length; failing that, -1. */
    method GetFirstEmptyPositionByLength(fileLength: int) returns (pos: int)
      ensures pos == Empty || IsFreeRunStart(Map, pos)
      ensures pos >= 0 && ClosedFreeRun(Map, pos) ==> RunEnd(Map, pos, Empty) - pos >= fileLength
      ensures pos == Empty ==> |Map| == 0 || Map[|Map| - 1] != Empty
      ensures forall p :: 0 <= p < |Map| && (pos == Empty || p < pos) && IsFreeRunStart(Map, p) ==>
                ClosedFreeRun(Map, p) && RunEnd(Map, p, Empty) - p < fileLength
      ensures pos == FirstFit(Map, fileLength)
    {
      pos := Empty;
      var foundEmpty := false;
      var emptyCtr := 0;
      var i := 0;
      while i < |Map|
        invariant 0 <= i <= |Map|
        invariant foundEmpty ==> IsFreeRunStart(Map, pos) && pos < i && emptyCtr == i - pos
                                 && forall k :: pos <= k < i ==> Map[k] == Empty
        invariant !foundEmpty ==> pos == Empty && emptyCtr == 0 && (i == 0 || Map[i - 1] != Empty)
        invariant forall p :: 0 <= p < (if foundEmpty then pos else i) && IsFreeRunStart(Map, p) ==>
                    RunEnd(Map, p, Empty) < i && RunEnd(Map, p, Empty) - p < fileLength
      {
        if Map[i] == Empty {
          if !foundEmpty {
            pos := i;
          }
          foundEmpty := true;
          emptyCtr := emptyCtr + 1;
        } else {
          if foundEmpty {
            RunEndAt(Map, pos, i, Empty);
            if emptyCtr >= fileLength {
              break;
            }
          }
          foundEmpty := false;
          emptyCtr := 0;
          pos := Empty;
        }
        i := i + 1;
      }
      if foundEmpty && i == |Map| {
        RunEndAt(Map, pos, i, Empty);
      }
      FirstFitIs(Map, fileLength, pos);
    }

    /** The inner copy loop of DefragmentWholeFilesOnce: the `length` cells
        from `from` go to the free cells at `to`, and their old cells become
        free. No cell is lost or invented, and the file cells sit at lower
        positions than before. */
    method MoveFile(from: nat, to: nat, length: nat)
      requires to + length <= from && from + length <= |Map|
      requires forall k :: to <= k < to + length ==> Map[k] == Empty
      requires forall k :: from <= k < from + length ==> Map[k] != Empty
      modifies this
      ensures Map == Moved(old(Map), from, to, length)
      ensures multiset(Map) == multiset(old(Map))
      ensures length > 0 ==> Moment(Map) < Moment(old(Map))
    {
      var i := 0;
      ghost var start := Map;
      while i < length
        invariant 0 <= i <= length
        invariant Map == Moved(start, from, to, i)
        invariant multiset(Map) == multiset(start)
        invariant Moment(Map) + i * (from - to) == Moment(start)
      {
        MoveOneCell(start, from, to, length, i);
        var cell := Map[from + i];
        Map := Map[to + i := cell][from + i := Empty];
        MulStep(i, from - to);
        i := i + 1;
      }
      if length > 0 {
        MulPositive(length, from - to);
      }
    }

    /** DefragmentWholeFilesOnce: one pass over the file IDs from the last one
        down to 0, each turn being DefragStep. The map keeps its length and
        every ID its cell count; moving files only to lower positions strictly
        lowers the sum of the positions of file cells, so the result is true
        exactly when the map changed. */
    method DefragmentWholeFilesOnce() returns (moved: bool)
      modifies this
      ensures Map == Defrag(old(Map), LastFileID(old(Map)))
      ensures |Map| == |old(Map)|
      ensures multiset(Map) == multiset(old(Map))
      ensures moved ==> Moment(Map) < Moment(old(Map))
      ensures !moved ==> Map == old(Map)
      ensures moved <==> Map != old(Map)
    {
      ghost var start := Map;
      var maxFileID := GetLastFileID();
      moved := false;
      var fileIDCtr := maxFileID;
      while fileIDCtr > -1
        invariant Defrag(Map, fileIDCtr) == Defrag(start, maxFileID)
        invariant |Map| == |start|
        invariant multiset(Map) == multiset(start)
        invariant moved ==> Moment(Map) < Moment(start)
        invariant !moved ==> Map == start
        decreases fileIDCtr
      {
        var fileIDCtrLength := GetFileLength(fileIDCtr);
        var positionFileCtr := GetFirstPositionByFileID(fileIDCtr);
        var positionFirstEmptyThatFitsCtr := GetFirstEmptyPositionByLength(fileIDCtrLength);
        if positionFirstEmptyThatFitsCtr < positionFileCtr && positionFirstEmptyThatFitsCtr != -1 {
          FitBeforeFile(Map, fileIDCtr, positionFirstEmptyThatFitsCtr, positionFileCtr, fileIDCtrLength);
          MoveFile(positionFileCtr, positionFirstEmptyThatFitsCtr, fileIDCtrLength);
          moved := true;
        }
        fileIDCtr := fileIDCtr - 1;
      }
    }

    /** CalculateChecksum: the decimal text of the sum of ID * position over
        the file cells. */
    method CalculateChecksum() returns (checksum: string)
      ensures checksum == FormatInt(Checksum(Map))
      ensures ParseInt(checksum) == Some(Checksum(Map))
    {
      var sum := 0;
      var i := 0;
      while i < |Map|
        invariant 0 <= i <= |Map|
        invariant sum == Checksum(Map[..i])
      {
        assert Map[..i + 1][..i] == Map[..i];
        if Map[i] != Empty {
          sum := sum + Map[i] * i;
        }
        i := i + 1;
      }
      assert Map[..i] == Map;
      checksum := FormatInt(sum);
      ParseFormatRoundTrip(sum);
    }
  }

  /** Sum of ID * position over the file cells. */
  function Checksum(s: seq<int>): int
  {
    if |s| == 0 then 0
    else
      var j := |s| - 1;
      Checksum(s[..j]) + (if s[j] != Empty then s[j] * j else 0)
  }

  /** Sum of the positions of the file cells: what moving files leftwards
      lowers. */
  function Moment(s: seq<int>): (m: nat)
  {
    if |s| == 0 then 0
    else
      var j := |s| - 1;
      Moment(s[..j]) + (if s[j] != Empty then j else 0)
  }

  lemma {:induction false} MomentUpdate(s: seq<int>, k: nat, v: int)
    requires k < |s|
    ensures Moment(s[k := v]) == Moment(s) - (if s[k] != Empty then k else 0) + (if v != Empty then k else 0)
  {
    var j := |s| - 1;
    var t := s[k := v];
    assert t[..j] == if k < j then s[..j][k := v] else s[..j];
    if k < j {
      MomentUpdate(s[..j], k, v);
    }
  }

  lemma SwapKeepsMultiset(s: seq<int>, a: nat, b: nat)
    requires a < |s| && b < |s| && a != b && s[a] == Empty
    ensures multiset(s[a := s[b]][b := Empty]) == multiset(s)
  {
    var t := s[a := s[b]];
    assert multiset(t) == multiset(s) - multiset{s[a]} + multiset{s[b]};
    assert multiset(t[b := Empty]) == multiset(t) - multiset{t[b]} + multiset{Empty};
  }

  lemma MulStep(i: int, d: int)
    ensures (i + 1) * d == i * d + d
  {
  }

  /** The map after the first n cells of a move from `from` to `to`. */
  function Moved(s: seq<int>, from: nat, to: nat, n: nat): (r: seq<int>)
    ensures |r| == |s|
  {
    seq(|s|, k requires 0 <= k < |s| =>
      if to <= k < to + n && k + from - to < |s| then s[k + from - to]
      else if from <= k < from + n then Empty
      else s[k])
  }

  lemma MoveStep(s: seq<int>, from: nat, to: nat, i: nat)
    requires to + i < from && from + i < |s|
    ensures Moved(s, from, to, i + 1) == Moved(s, from, to, i)[to + i := s[from + i]][from + i := Empty]
    ensures Moved(s, from, to, i)[from + i] == s[from + i]
    ensures Moved(s, from, to, i)[to + i] == s[to + i]
  {
  }

  /** One cell of a file move: the cell at from + i goes to the free cell at
      to + i, which keeps the cells and lowers the moment by from - to. */
  lemma MoveOneCell(s: seq<int>, from: nat, to: nat, length: nat, i: nat)
    requires to + length <= from && from + length <= |s|
    requires forall k :: to <= k < to + length ==> s[k] == Empty
    requires forall k :: from <= k < from + length ==> s[k] != Empty
    requires i < length
    ensures var m := Moved(s, from, to, i);
      var n := m[to + i := m[from + i]][from + i := Empty];
      n == Moved(s, from, to, i + 1) && multiset(n) == multiset(m) && Moment(n) + (from - to) == Moment(m)
  {
    var m := Moved(s, from, to, i);
    MoveStep(s, from, to, i);
    var t := m[to + i := m[from + i]];
    MomentUpdate(m, to + i, m[from + i]);
    SwapKeepsMultiset(m, to + i, from + i);
    MomentUpdate(t, from + i, Empty);
  }

  lemma MulPositive(a: int, b: int)
    requires a > 0 && b > 0
    ensures a * b > 0
  {
  }

  /** When the first fitting free run starts before the file, the whole file
      fits between them: the run is closed by the file itself or by an earlier
      file cell, so it is at least as long as the file. */
  lemma FitBeforeFile(s: seq<int>, id: int, to: int, from: int, length: nat)
    requires id >= 0
    requires from == FirstPosition(s, id)
    requires length == if from == -1 then 0 else RunEnd(s, from, id) - from
    requires 0 <= to < from && IsFreeRunStart(s, to)
    requires ClosedFreeRun(s, to) ==> RunEnd(s, to, Empty) - to >= length
    ensures length > 0 && to + length <= from && from + length <= |s|
    ensures forall k :: to <= k < to + length ==> s[k] == Empty
    ensures forall k :: from <= k < from + length ==> s[k] != Empty
  {
    assert RunEnd(s, to, Empty) <= from;
  }

  /** A result with the properties the scan of getFirstEmptyPositionByLength
      establishes is the first fitting run. */
  lemma FirstFitIs(s: seq<int>, fileLength: int, pos: int)
    requires pos == Empty || IsFreeRunStart(s, pos)
    requires pos >= 0 && ClosedFreeRun(s, pos) ==> RunEnd(s, pos, Empty) - pos >= fileLength
    requires forall p :: 0 <= p < |s| && (pos == Empty || p < pos) && IsFreeRunStart(s, p) ==>
               ClosedFreeRun(s, p) && RunEnd(s, p, Empty) - p < fileLength
    ensures pos == FirstFit(s, fileLength)
  {
    var r := FirstFit(s, fileLength);
    if pos != r {
      if r == Empty || (pos != Empty && pos < r) {
        assert Fits(s, pos, fileLength);
      }
    }
  }

  /** One turn moves the whole first run of the file, cell by cell, to the
      start of the first free run that fits it, which lies before the file;
      the file's old cells become free and every other cell is unchanged.
      When there is no such run the disk is unchanged. */
  lemma DefragStepMoves(s: seq<int>, id: int)
    requires id >= 0
    ensures var from := FirstPosition(s, id);
            var length := FileLength(s, id);
            var to := FirstFit(s, length);
            var r := DefragStep(s, id);
            to != Empty && to < from ==>
              length > 0 && 0 <= to && to + length <= from && from + length <= |s| &&
              IsFreeRunStart(s, to) &&
              (forall p :: 0 <= p < to ==> !Fits(s, p, length)) &&
              (forall k :: to <= k < to + length ==> s[k] == Empty && r[k] == id) &&
              (forall k :: from <= k < from + length ==> s[k] == id && r[k] == Empty) &&
              (forall k :: 0 <= k < |s| && !(to <= k < to + length) && !(from <= k < from + length) ==> r[k] == s[k])
    ensures var from := FirstPosition(s, id);
            var to := FirstFit(s, FileLength(s, id));
            !(to != Empty && to < from) ==> DefragStep(s, id) == s
  {
    var from := FirstPosition(s, id);
    var length := FileLength(s, id);
    var to := FirstFit(s, length);
    if to != Empty && to < from {
      FitBeforeFile(s, id, to, from, length);
      assert DefragStep(s, id) == Moved(s, from, to, length);
      MovedCells(s, from, to, length);
    }
  }

  lemma MovedCells(s: seq<int>, from: nat, to: nat, n: nat)
    requires to + n <= from && from + n <= |s|
    ensures forall k :: to <= k < to + n ==> Moved(s, from, to, n)[k] == s[k + from - to]
    ensures forall k :: from <= k < from + n ==> Moved(s, from, to, n)[k] == Empty
    ensures forall k :: 0 <= k < |s| && !(to <= k < to + n) && !(from <= k < from + n) ==>
              Moved(s, from, to, n)[k] == s[k]
  {
  }

  /** Day9: lay the disk out, run one defragmentation pass and take the
      checksum of the result. The disk is the layout after the turns for
      every file ID from the last one down; it keeps its size and every file
      its cells, and no file cell ends further right on balance. */
  method Day9(inputMemory: string) returns (checksum: string, disk: seq<int>)
    ensures disk == Defrag(Layout(inputMemory), LastFileID(Layout(inputMemory)))
    ensures |disk| == DigitSum(inputMemory)
    ensures multiset(disk) == multiset(Layout(inputMemory))
    ensures Moment(disk) <= Moment(Layout(inputMemory))
    ensures checksum == FormatInt(Checksum(disk))
    ensures ParseInt(checksum) == Some(Checksum(disk))
  {
    var diskMap := new DiskMap(inputMemory);
    LayoutLength(inputMemory);
    var moved := diskMap.DefragmentWholeFilesOnce();
    checksum := diskMap.CalculateChecksum();
    disk := diskMap.Map;
  }
}
