/** Day 2: reactor reports. Each line is a report of levels. A report is
    safe when it has at least two levels, is strictly increasing or
    strictly decreasing, and adjacent levels differ by at most three. Part 2
    lets the check forgive one bad level; the count of part 2 verdicts over
    all reports is the answer. */
module Day2 {
  import opened GoText

  function Abs(x: int): nat
  {
    if x < 0 then -x else x
  }

  // ------------------------------------------------------------ the rules

  predicate IncreasingFrom(row: seq<int>, i: int)
  {
    forall j :: i <= j && 0 <= j < |row| - 1 ==> row[j] < row[j + 1]
  }

  predicate DecreasingFrom(row: seq<int>, i: int)
  {
    forall j :: i <= j && 0 <= j < |row| - 1 ==> row[j] > row[j + 1]
  }

  predicate GradualFrom(row: seq<int>, i: int)
  {
    forall j :: i <= j && 0 <= j < |row| - 1 ==> Abs(row[j + 1] - row[j]) <= 3
  }

  /** The part 1 rule. */
  predicate Safe(row: seq<int>)
  {
    |row| >= 2 && (IncreasingFrom(row, 0) || DecreasingFrom(row, 0)) && GradualFrom(row, 0)
  }

  /** processInputs2: a rising pass, a falling pass when the rising one
      fails, and a gradual pass when either succeeds; each pass stops at the
      first pair that breaks its rule. */
  method ProcessInputs2(rowList: seq<int>) returns (safe: int)
    ensures safe == if Safe(rowList) then 1 else 0
  {
    var isSafeRisingOrFalling := 0;
    var i := 0;
    while i < |rowList| - 1
      invariant 0 <= i && (i == 0 || i <= |rowList| - 1)
      invariant forall j :: 0 <= j < i ==> rowList[j] < rowList[j + 1]
      invariant isSafeRisingOrFalling == if i == 0 then 0 else 1
    {
      if rowList[i] < rowList[i + 1] {
        isSafeRisingOrFalling := 1;
      } else {
        isSafeRisingOrFalling := 0;
        break;
      }
      i := i + 1;
    }
    assert isSafeRisingOrFalling == 1 <==> |rowList| >= 2 && IncreasingFrom(rowList, 0);

    if isSafeRisingOrFalling == 0 {
      i := 0;
      while i < |rowList| - 1
        invariant 0 <= i && (i == 0 || i <= |rowList| - 1)
        invariant forall j :: 0 <= j < i ==> rowList[j] > rowList[j + 1]
        invariant isSafeRisingOrFalling == if i == 0 then 0 else 1
      {
        if rowList[i] > rowList[i + 1] {
          isSafeRisingOrFalling := 1;
        } else {
          isSafeRisingOrFalling := 0;
          break;
        }
        i := i + 1;
      }
    }
    assert isSafeRisingOrFalling == 1 <==> |rowList| >= 2 && (IncreasingFrom(rowList, 0) || DecreasingFrom(rowList, 0));

    var isSafeGradual := 0;
    if isSafeRisingOrFalling == 1 {
      i := 0;
      while i < |rowList| - 1
        invariant 0 <= i <= |rowList| - 1
        invariant forall j :: 0 <= j < i ==> Abs(rowList[j + 1] - rowList[j]) <= 3
        invariant isSafeGradual == if i == 0 then 0 else 1
      {
        var diff := Abs(rowList[i + 1] - rowList[i]);
        if diff <= 3 {
          isSafeGradual := 1;
        } else {
          isSafeGradual := 0;
          break;
        }
        i := i + 1;
      }
    }
    assert isSafeGradual == 1 <==> isSafeRisingOrFalling == 1 && GradualFrom(rowList, 0);
    safe := isSafeRisingOrFalling * isSafeGradual;
  }

  // ------------------------------------------------------ the forgiving check

  /** The state the passes of processInputs2pt2 carry: the current verdict
      of the pass, whether a bad level may still be forgiven, and the index
      of the forgiven level (-1 for none). */
  datatype Check = Check(verdict: int, allowForgive: bool, forgiveRowNum: int)

  /** The rising pass from pair i on. A pair that does not rise is
      forgiven once, recording the later level; a second one stops the pass
      with verdict 0. */
  function Rising(row: seq<int>, i: int, c: Check): Check
    requires i >= 0
    decreases |row| - i
  {
    if i >= |row| - 1 then c
    else if row[i] < row[i + 1] then Rising(row, i + 1, c.(verdict := 1))
    else if c.allowForgive then Rising(row, i + 1, Check(1, false, i + 1))
    else c.(verdict := 0)
  }

  /** The falling pass from pair i on; the pair that starts at the
      forgiven index is skipped. */
  function Falling(row: seq<int>, i: int, c: Check): Check
    requires i >= 0
    decreases |row| - i
  {
    if i >= |row| - 1 then c
    else if i == c.forgiveRowNum then Falling(row, i + 1, c)
    else if row[i] > row[i + 1] then Falling(row, i + 1, c.(verdict := 1))
    else if c.allowForgive then Falling(row, i + 1, Check(1, false, i + 1))
    else c.(verdict := 0)
  }

  /** The gradual pass from pair i on; the pair that starts at the
      forgiven index is skipped, and a steep pair is forgiven whenever
      forgiving is still allowed (this pass never withdraws it). */
  function Gradual(row: seq<int>, i: int, c: Check): Check
    requires i >= 0
    decreases |row| - i
  {
    if i >= |row| - 1 then c
    else if i == c.forgiveRowNum then Gradual(row, i + 1, c)
    else if Abs(row[i + 1] - row[i]) <= 3 then Gradual(row, i + 1, c.(verdict := 1))
    else if c.allowForgive then Gradual(row, i + 1, c.(forgiveRowNum := i + 1, verdict := 1))
    else c.(verdict := 0)
  }

  /** The verdict of processInputs2pt2 and the index it forgave. */
  datatype Verdict = Verdict(safe: int, forgiveRowNum: int)

  /** processInputs2pt2 on a row: the three passes in order, each starting
      from what the previous one left. */
  function Pt2(row: seq<int>, allowForgive: bool): Verdict
  {
    var rise := Rising(row, 0, Check(0, allowForgive, -1));
    var mono := if rise.verdict == 0 then Falling(row, 0, rise) else rise;
    var grad := if mono.verdict == 1 then Gradual(row, 0, mono.(verdict := 0)) else mono.(verdict := 0);
    Verdict(mono.verdict * grad.verdict, grad.forgiveRowNum)
  }

  /** A forgiven index names a level after the first, so the removal
      slices exist. */
  predicate ForgiveInRange(row: seq<int>, f: int)
  {
    f == -1 || 1 <= f <= |row| - 1
  }

  lemma {:induction false} PassesKeepForgiveInRange(row: seq<int>, i: int, c: Check)
    requires i >= 0 && ForgiveInRange(row, c.forgiveRowNum) && (c.verdict == 0 || c.verdict == 1)
    ensures ForgiveInRange(row, Rising(row, i, c).forgiveRowNum)
    ensures ForgiveInRange(row, Falling(row, i, c).forgiveRowNum)
    ensures ForgiveInRange(row, Gradual(row, i, c).forgiveRowNum)
    ensures Rising(row, i, c).verdict in {0, 1} && Falling(row, i, c).verdict in {0, 1} && Gradual(row, i, c).verdict in {0, 1}
    decreases |row| - i
  {
    if i < |row| - 1 {
      PassesKeepForgiveInRange(row, i + 1, c.(verdict := 1));
      PassesKeepForgiveInRange(row, i + 1, Check(1, false, i + 1));
      PassesKeepForgiveInRange(row, i + 1, c.(forgiveRowNum := i + 1, verdict := 1));
      PassesKeepForgiveInRange(row, i + 1, c);
    }
  }

  /** processInputs2pt2 answers 0 or 1 and forgives at most one level,
      one after the first. */
  lemma Pt2Bounds(row: seq<int>, allowForgive: bool)
    ensures Pt2(row, allowForgive).safe in {0, 1}
    ensures ForgiveInRange(row, Pt2(row, allowForgive).forgiveRowNum)
  {
    var rise := Rising(row, 0, Check(0, allowForgive, -1));
    PassesKeepForgiveInRange(row, 0, Check(0, allowForgive, -1));
    PassesKeepForgiveInRange(row, 0, rise);
    var mono := if rise.verdict == 0 then Falling(row, 0, rise) else rise;
    PassesKeepForgiveInRange(row, 0, mono.(verdict := 0));
  }

  // ------------------------------------------- without forgiving: part 1

  lemma {:induction false} RisingStrict(row: seq<int>, i: int, c: Check)
    requires i >= 0 && !c.allowForgive
    ensures Rising(row, i, c) ==
            if i >= |row| - 1 then c else c.(verdict := if IncreasingFrom(row, i) then 1 else 0)
    decreases |row| - i
  {
    if i < |row| - 1 {
      RisingStrict(row, i + 1, c.(verdict := 1));
    }
  }

  lemma {:induction false} FallingStrict(row: seq<int>, i: int, c: Check)
    requires i >= 0 && !c.allowForgive && c.forgiveRowNum == -1
    ensures Falling(row, i, c) ==
            if i >= |row| - 1 then c else c.(verdict := if DecreasingFrom(row, i) then 1 else 0)
    decreases |row| - i
  {
    if i < |row| - 1 {
      FallingStrict(row, i + 1, c.(verdict := 1));
    }
  }

  lemma {:induction false} GradualStrict(row: seq<int>, i: int, c: Check)
    requires i >= 0 && !c.allowForgive && c.forgiveRowNum == -1
    ensures Gradual(row, i, c) ==
            if i >= |row| - 1 then c else c.(verdict := if GradualFrom(row, i) then 1 else 0)
    decreases |row| - i
  {
    if i < |row| - 1 {
      GradualStrict(row, i + 1, c.(verdict := 1));
    }
  }

  /** Without forgiving, processInputs2pt2 gives the part 1 verdict and
      forgives nothing. */
  lemma Pt2WithoutForgiving(row: seq<int>)
    ensures Pt2(row, false) == Verdict(if Safe(row) then 1 else 0, -1)
  {
    var start := Check(0, false, -1);
    RisingStrict(row, 0, start);
    var rise := Rising(row, 0, start);
    FallingStrict(row, 0, rise);
    var mono := if rise.verdict == 0 then Falling(row, 0, rise) else rise;
    GradualStrict(row, 0, mono.(verdict := 0));
  }

  // ------------------------------------------- forgiving keeps safe rows

  lemma {:induction false} RisingKeeps(row: seq<int>, i: int, c: Check)
    requires i >= 0 && c.verdict == 1 && IncreasingFrom(row, i)
    ensures Rising(row, i, c) == c
    decreases |row| - i
  {
    if i < |row| - 1 {
      RisingKeeps(row, i + 1, c);
    }
  }

  lemma {:induction false} FallingKeeps(row: seq<int>, i: int, c: Check)
    requires i >= 0 && c.verdict == 1 && DecreasingFrom(row, i)
    ensures Falling(row, i, c) == c
    decreases |row| - i
  {
    if i < |row| - 1 {
      FallingKeeps(row, i + 1, c);
    }
  }

  lemma {:induction false} GradualKeeps(row: seq<int>, i: int, c: Check)
    requires i >= 0 && c.verdict == 1 && GradualFrom(row, i)
    ensures Gradual(row, i, c) == c
    decreases |row| - i
  {
    if i < |row| - 1 {
      GradualKeeps(row, i + 1, c);
    }
  }

  /** Every report the part 1 rule accepts, the forgiving check accepts.
      A falling report spends its forgiveness on the second level in the
      rising pass and is then accepted by the falling pass, which skips that
      level's pair. */
  lemma Pt2AcceptsSafe(row: seq<int>)
    requires Safe(row)
    ensures Pt2(row, true).safe == 1
  {
    if IncreasingFrom(row, 0) {
      RisingKeeps(row, 1, Check(1, true, -1));
      GradualKeeps(row, 1, Check(1, true, -1));
    } else {
      assert row[0] > row[1];
      var c := Check(1, false, 1);
      if |row| == 2 {
        assert Rising(row, 0, Check(0, true, -1)) == c;
        assert Gradual(row, 0, c.(verdict := 0)) == Gradual(row, 1, c);
      } else {
        assert Rising(row, 0, Check(0, true, -1)) == Rising(row, 1, c);
        assert Rising(row, 1, c) == c.(verdict := 0);
        FallingKeeps(row, 1, c);
        assert Falling(row, 0, c.(verdict := 0)) == Falling(row, 1, c);
        GradualKeeps(row, 1, c);
        assert Gradual(row, 0, c.(verdict := 0)) == Gradual(row, 1, c);
      }
    }
  }

  // ------------------------------------------------- the forgiven level

  /** The row with the level at index k removed. */
  function Remove(row: seq<int>, k: int): seq<int>
    requires 0 <= k < |row|
  {
    row[..k] + row[k + 1..]
  }

  /** The evidently intended part 2 rule: safe, or safe once one level is
      removed. */
  predicate Tolerable(row: seq<int>)
  {
    Safe(row) || exists k :: 0 <= k < |row| && Safe(Remove(row, k))
  }

  /** The pass skips the pair at the forgiven index but never compares the
      levels on either side of it, so a report whose every pair is too steep
      is accepted after forgiving just one of them. */
  lemma AcceptsUntolerable()
    ensures Pt2([1, 5, 9], true).safe == 1
    ensures !Tolerable([1, 5, 9])
  {
    var row := [1, 5, 9];
    assert Rising(row, 0, Check(0, true, -1)) == Check(1, true, -1);
    assert Gradual(row, 1, Check(1, true, 1)) == Check(1, true, 1);
    assert Gradual(row, 0, Check(0, true, -1)) == Check(1, true, 1);
    forall k | 0 <= k < 3
      ensures !Safe(Remove(row, k))
    {
      if k == 0 {
        assert Remove(row, k) == [5, 9];
      } else if k == 1 {
        assert Remove(row, k) == [1, 9];
      } else {
        assert Remove(row, k) == [1, 5];
      }
      assert Abs(Remove(row, k)[1] - Remove(row, k)[0]) > 3;
    }
  }

  /** The rising pass spends the forgiveness, so the falling pass cannot
      forgive the first level of a report that only that level spoils. */
  lemma RejectsTolerable()
    ensures Pt2([1, 2, 1, 0], true).safe == 0
    ensures Tolerable([1, 2, 1, 0])
  {
    var row := [1, 2, 1, 0];
    assert Rising(row, 2, Check(1, false, 2)) == Check(0, false, 2);
    assert Rising(row, 0, Check(0, true, -1)) == Check(0, false, 2);
    assert Falling(row, 0, Check(0, false, 2)) == Check(0, false, 2);
    assert Remove(row, 0) == [2, 1, 0];
    assert Safe(Remove(row, 0));
  }

  /** Whether removing one of the first n levels leaves a safe row. */
  function SafeAfterRemovingBelow(row: seq<int>, n: int): bool
    requires n <= |row|
    decreases n
  {
    n > 0 && (Safe(Remove(row, n - 1)) || SafeAfterRemovingBelow(row, n - 1))
  }

  lemma {:induction false} SafeAfterRemovingBelowMeans(row: seq<int>, n: int)
    requires n <= |row|
    ensures SafeAfterRemovingBelow(row, n) <==> exists k :: 0 <= k < n && Safe(Remove(row, k))
    decreases n
  {
    if n > 0 {
      SafeAfterRemovingBelowMeans(row, n - 1);
    }
  }

  /** The corrected part 2 verdict: 1 exactly when the report is safe or
      becomes safe without one of its levels. */
  function TolerantVerdict(row: seq<int>): (safe: int)
    ensures safe == 1 <==> Tolerable(row)
    ensures safe == 0 <==> !Tolerable(row)
  {
    SafeAfterRemovingBelowMeans(row, |row|);
    if Safe(row) || SafeAfterRemovingBelow(row, |row|) then 1 else 0
  }

  // ------------------------------------------------- processInputs2pt2

  /** The rising pass of processInputs2pt2 over the array. */
  method RisingPass(rowList: array<int>, allowForgive: bool) returns (c: Check)
    ensures c == Rising(rowList[..], 0, Check(0, allowForgive, -1))
  {
    ghost var row := rowList[..];
    var forgive := allowForgive;
    var forgiveRowNum := -1;
    var isSafeRisingOrFalling := 0;
    var i := 0;
    while i < rowList.Length - 1
      invariant 0 <= i && (i == 0 || i <= rowList.Length - 1)
      invariant Rising(row, 0, Check(0, allowForgive, -1)) == Rising(row, i, Check(isSafeRisingOrFalling, forgive, forgiveRowNum))
    {
      if rowList[i] < rowList[i + 1] {
        isSafeRisingOrFalling := 1;
      } else {
        if forgive {
          forgiveRowNum := i + 1;
          forgive := false;
          isSafeRisingOrFalling := 1;
        } else {
          isSafeRisingOrFalling := 0;
          break;
        }
      }
      i := i + 1;
    }
    c := Check(isSafeRisingOrFalling, forgive, forgiveRowNum);
  }

  /** The falling pass of processInputs2pt2, from the state the rising
      pass left. */
  method FallingPass(rowList: array<int>, start: Check) returns (c: Check)
    ensures c == Falling(rowList[..], 0, start)
  {
    ghost var row := rowList[..];
    c := start;
    var i := 0;
    while i < rowList.Length - 1
      invariant 0 <= i && (i == 0 || i <= rowList.Length - 1)
      invariant Falling(row, 0, start) == Falling(row, i, c)
    {
      if i == c.forgiveRowNum {
        i := i + 1;
        continue;
      }
      if rowList[i] > rowList[i + 1] {
        c := c.(verdict := 1);
      } else {
        if c.allowForgive {
          c := Check(1, false, i + 1);
        } else {
          c := c.(verdict := 0);
          break;
        }
      }
      i := i + 1;
    }
  }

  /** The gradual pass of processInputs2pt2, from the state the
      monotonicity passes left. */
  method GradualPass(rowList: array<int>, start: Check) returns (c: Check)
    ensures c == Gradual(rowList[..], 0, start)
  {
    ghost var row := rowList[..];
    c := start;
    var i := 0;
    while i < rowList.Length - 1
      invariant 0 <= i && (i == 0 || i <= rowList.Length - 1)
      invariant Gradual(row, 0, start) == Gradual(row, i, c)
    {
      if i == c.forgiveRowNum {
        i := i + 1;
        continue;
      }
      var diff := Abs(rowList[i + 1] - rowList[i]);
      if diff <= 3 {
        c := c.(verdict := 1);
      } else {
        if c.allowForgive {
          c := c.(forgiveRowNum := i + 1, verdict := 1);
        } else {
          c := c.(verdict := 0);
          break;
        }
      }
      i := i + 1;
    }
  }

  /** processInputs2pt2, in place on the caller's row. The removal
      `append(rowList[:f], rowList[f+1:]...)` writes into the caller's
      backing array: the levels after the forgiven one move down by one and
      the last level stays where it was. */
  method ProcessInputs2Pt2(rowList: array<int>, allowForgive: bool) returns (safe: int)
    modifies rowList
    ensures safe == Pt2(old(rowList[..]), allowForgive).safe
    ensures var f := Pt2(old(rowList[..]), allowForgive).forgiveRowNum;
            if f == -1 then rowList[..] == old(rowList[..])
            else 1 <= f < rowList.Length &&
                 rowList[..] == old(rowList[..f]) + old(rowList[f + 1..]) + [old(rowList[rowList.Length - 1])]
  {
    Pt2Bounds(rowList[..], allowForgive);
    var mono := RisingPass(rowList, allowForgive);
    if mono.verdict == 0 {
      mono := FallingPass(rowList, mono);
    }
    var grad := mono.(verdict := 0);
    if mono.verdict == 1 {
      grad := GradualPass(rowList, grad);
    }
    if grad.forgiveRowNum != -1 {
      Shift(rowList, grad.forgiveRowNum);
    }
    safe := mono.verdict * grad.verdict;
  }

  /** append(rowList[:f], rowList[f+1:]...) on the shared backing array:
      copy each later level one place down. */
  method Shift(rowList: array<int>, f: int)
    requires 1 <= f < rowList.Length
    modifies rowList
    ensures rowList[..] == old(rowList[..f]) + old(rowList[f + 1..]) + [old(rowList[rowList.Length - 1])]
  {
    for k := f to rowList.Length - 1
      invariant forall j :: 0 <= j < f ==> rowList[j] == old(rowList[j])
      invariant forall j :: f <= j < k ==> rowList[j] == old(rowList[j + 1])
      invariant forall j :: k <= j < rowList.Length ==> rowList[j] == old(rowList[j])
    {
      rowList[k] := rowList[k + 1];
    }
  }

  // ------------------------------------------------------------ gathering

  /** The levels of a line: its space-separated fields that parse. */
  function RowOf(line: string): seq<int>
  {
    ParsedInts(Fields(line))
  }

  /** gatherInputs2: one new row, holding the values of the fields that
      parse, appended to the list. */
  method GatherInputs2(line: string, inputArray: seq<array<int>>) returns (updated: seq<array<int>>)
    ensures |updated| == |inputArray| + 1 && updated[..|inputArray|] == inputArray
    ensures fresh(updated[|inputArray|]) && updated[|inputArray|][..] == RowOf(line)
  {
    var parts := Fields(line);
    var rowList: seq<int> := [];
    var i := 0;
    while i < |parts|
      invariant 0 <= i <= |parts|
      invariant rowList + ParsedInts(parts[i..]) == ParsedInts(parts)
    {
      ParsedIntsStep(parts, i);
      match ParseInt(parts[i]) {
        case None =>
        case Some(num) =>
          rowList := rowList + [num];
      }
      i := i + 1;
    }
    var row := new int[|rowList|](k requires 0 <= k < |rowList| => rowList[k]);
    updated := inputArray + [row];
  }

  // ----------------------------------------------------------------- Day2

  /** The reports of the lines, in order. */
  function Rows(lines: seq<string>): (rows: seq<seq<int>>)
    ensures |rows| == |lines|
  {
    seq(|lines|, k requires 0 <= k < |lines| => RowOf(lines[k]))
  }

  /** The sum of the forgiving verdicts over the reports. */
  function SafeCount2(rows: seq<seq<int>>): int
  {
    if rows == [] then 0
    else SafeCount2(rows[..|rows| - 1]) + Pt2(rows[|rows| - 1], true).safe
  }

  /** The count is the number of reports the forgiving check accepts. */
  lemma {:induction false} SafeCount2Bounds(rows: seq<seq<int>>)
    ensures 0 <= SafeCount2(rows) <= |rows|
  {
    if rows != [] {
      SafeCount2Bounds(rows[..|rows| - 1]);
      Pt2Bounds(rows[|rows| - 1], true);
    }
  }

  /** No row appears twice in the list. */
  predicate Distinct(rows: seq<array<int>>)
  {
    forall i, j :: 0 <= i < j < |rows| ==> rows[i] != rows[j]
  }

  lemma DistinctAppend(rows: seq<array<int>>, row: array<int>)
    requires Distinct(rows) && row !in rows
    ensures Distinct(rows + [row])
  {
  }

  /** The scan loop of Day2: gatherInputs2 on every line, each into a new
      row of its own. */
  method GatherAll(lines: seq<string>) returns (inputArray: seq<array<int>>)
    ensures |inputArray| == |lines|
    ensures forall j :: 0 <= j < |lines| ==> fresh(inputArray[j]) && inputArray[j][..] == RowOf(lines[j])
    ensures Distinct(inputArray)
  {
    inputArray := [];
    for k := 0 to |lines|
      invariant |inputArray| == k
      invariant forall j :: 0 <= j < k ==> fresh(inputArray[j])
      invariant forall j :: 0 <= j < k ==> inputArray[j][..] == RowOf(lines[j])
      invariant Distinct(inputArray)
    {
      ghost var before := inputArray;
      inputArray := GatherInputs2(lines[k], inputArray);
      assert inputArray == before + [inputArray[k]];
      DistinctAppend(before, inputArray[k]);
    }
  }

  /** The processing loop of Day2: the forgiving check on every row. The
      copy row2 has the row's length and the check does not shorten the
      row, so the fallback to the unforgiving check never runs. */
  method CountSafe(inputArray: seq<array<int>>, ghost rows: seq<seq<int>>) returns (safeCount2: int)
    requires |rows| == |inputArray|
    requires forall j :: 0 <= j < |rows| ==> inputArray[j][..] == rows[j]
    requires Distinct(inputArray)
    modifies inputArray
    ensures safeCount2 == SafeCount2(rows)
  {
    safeCount2 := 0;
    for k := 0 to |inputArray|
      invariant safeCount2 == SafeCount2(rows[..k])
      invariant forall j :: k <= j < |inputArray| ==> inputArray[j][..] == rows[j]
    {
      assert rows[..k + 1][..k] == rows[..k];
      var row := inputArray[k];
      var row2 := row[..];
      var safe2 := ProcessInputs2Pt2(row, true);
      if safe2 == 0 && row.Length < |row2| {
        assert false;
      }
      safeCount2 := safeCount2 + safe2;
    }
    assert rows[..|rows|] == rows;
  }

  /** Day2: every report read, then counted by the forgiving check. */
  method Day2(lines: seq<string>) returns (safeCount2: int)
    ensures safeCount2 == SafeCount2(Rows(lines))
  {
    var inputArray := GatherAll(lines);
    safeCount2 := CountSafe(inputArray, Rows(lines));
  }
}
