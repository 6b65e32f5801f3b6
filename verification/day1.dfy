/** Day 1: two columns of location IDs. Part A pairs the smallest left ID
    with the smallest right ID, the second smallest with the second
    smallest, and so on, and sums the distances of the pairs. Part B sums
    each left ID times the number of times it occurs in the right column. */
module Day1 {
  import opened GoText

  function Abs(x: int): nat
  {
    if x < 0 then -x else x
  }

  // ------------------------------------------------------------ GetInputs

  /** The separator between the two columns of a line. */
  const ColumnSeparator := "   "

  function Lines(inputMemory: string): seq<string>
  {
    Split(inputMemory, "\n")
  }

  /** Every line has a second field; the Go code indexes slice[1]
      unconditionally and panics otherwise. */
  predicate Paired(lines: seq<string>)
  {
    forall k :: 0 <= k < |lines| ==> |Split(lines[k], ColumnSeparator)| >= 2
  }

  /** Field c (0 or 1) of every line. */
  function Column(lines: seq<string>, c: nat): (fields: seq<string>)
    requires c < 2 && Paired(lines)
    ensures |fields| == |lines|
  {
    seq(|lines|, k requires 0 <= k < |lines| => Split(lines[k], ColumnSeparator)[c])
  }

  /** The left and right lists GetInputs returns. */
  function LeftIds(inputMemory: string): seq<int>
    requires Paired(Lines(inputMemory))
  {
    ParsedInts(Column(Lines(inputMemory), 0))
  }

  function RightIds(inputMemory: string): seq<int>
    requires Paired(Lines(inputMemory))
  {
    ParsedInts(Column(Lines(inputMemory), 1))
  }

  /** GetInputs after the file is read: every line split on three spaces,
      the left field parsed into the left list and the right field into the
      right list, each skipped on its own when it does not parse. */
  method GetInputs(inputMemory: string) returns (left: seq<int>, right: seq<int>)
    requires Paired(Lines(inputMemory))
    ensures left == LeftIds(inputMemory) && right == RightIds(inputMemory)
  {
    var lines := Split(inputMemory, "\n");
    ghost var lefts := Column(lines, 0);
    ghost var rights := Column(lines, 1);
    left, right := [], [];
    for i := 0 to |lines|
      invariant left + ParsedInts(lefts[i..]) == ParsedInts(lefts)
      invariant right + ParsedInts(rights[i..]) == ParsedInts(rights)
    {
      var slice := Split(lines[i], ColumnSeparator);
      assert slice[0] == lefts[i] && slice[1] == rights[i];
      ParsedIntsStep(lefts, i);
      ParsedIntsStep(rights, i);
      ghost var leftBefore, rightBefore := left, right;
      left := AppendParsed(left, slice[0]);
      right := AppendParsed(right, slice[1]);
      StepAssociates(leftBefore, left, ParsedInts(lefts[i..]), ParsedInts(lefts[i + 1..]));
      StepAssociates(rightBefore, right, ParsedInts(rights[i..]), ParsedInts(rights[i + 1..]));
    }
    assert lefts[|lines|..] == [] && rights[|lines|..] == [];
  }

  /** One `t, err := strconv.Atoi(field); if err == nil { list =
      append(list, t) }` block of GetInputs. */
  method AppendParsed(list: seq<int>, field: string) returns (list': seq<int>)
    ensures list' == list + (if ParseInt(field).Some? then [ParseInt(field).value] else [])
  {
    list' := list;
    match ParseInt(field) {
      case None =>
      case Some(t) =>
        list' := list + [t];
    }
  }

  /** What one parsed field adds to the list is what it adds to the
      parse of the remaining fields. */
  lemma StepAssociates(before: seq<int>, after: seq<int>, rest: seq<int>, later: seq<int>)
    requires exists step :: after == before + step && rest == step + later
    ensures after + later == before + rest
  {
    var step :| after == before + step && rest == step + later;
    assert after + later == before + (step + later);
  }

  /** An input line holding two IDs. */
  function PairLine(l: int, r: int): string
  {
    Join([FormatInt(l), FormatInt(r)], ColumnSeparator)
  }

  /** The input holding the two columns side by side. */
  function InputOf(ls: seq<int>, rs: seq<int>): string
    requires |ls| == |rs|
  {
    Join(seq(|ls|, k requires 0 <= k < |ls| => PairLine(ls[k], rs[k])), "\n")
  }

  lemma PairLineSplits(l: int, r: int)
    ensures Split(PairLine(l, r), ColumnSeparator) == [FormatInt(l), FormatInt(r)]
    ensures '\n' !in PairLine(l, r)
  {
    FormatIntChars(l);
    FormatIntChars(r);
    var parts := [FormatInt(l), FormatInt(r)];
    assert PiecesFree(parts, ' ');
    assert PiecesFree(parts, '\n');
    SplitJoinInverse(parts, ColumnSeparator);
    JoinFree(parts, ColumnSeparator, '\n');
  }

  /** Rendering every value and parsing the renderings gives the values. */
  lemma {:induction false} ParsedFormatted(xs: seq<int>, fields: seq<string>)
    requires |fields| == |xs| && forall k :: 0 <= k < |xs| ==> fields[k] == FormatInt(xs[k])
    ensures ParsedInts(fields) == xs
  {
    if xs != [] {
      ParseFormatRoundTrip(xs[0]);
      ParsedFormatted(xs[1..], fields[1..]);
    }
  }

  /** Reading the two columns written side by side gives them back. */
  lemma GetInputsReadsColumns(ls: seq<int>, rs: seq<int>)
    requires |ls| == |rs| && |ls| >= 1
    ensures Paired(Lines(InputOf(ls, rs)))
    ensures LeftIds(InputOf(ls, rs)) == ls && RightIds(InputOf(ls, rs)) == rs
  {
    var lines := seq(|ls|, k requires 0 <= k < |ls| => PairLine(ls[k], rs[k]));
    forall k | 0 <= k < |lines|
      ensures Split(lines[k], ColumnSeparator) == [FormatInt(ls[k]), FormatInt(rs[k])]
      ensures '\n' !in lines[k]
    {
      PairLineSplits(ls[k], rs[k]);
    }
    assert PiecesFree(lines, '\n');
    SplitJoinInverse(lines, "\n");
    assert Lines(InputOf(ls, rs)) == lines;
    ParsedFormatted(ls, Column(lines, 0));
    ParsedFormatted(rs, Column(lines, 1));
  }

  // ------------------------------------------------------------- sort.Ints

  predicate Sorted(s: seq<int>)
  {
    forall i, j :: 0 <= i < j < |s| ==> s[i] <= s[j]
  }

  /** x placed into an ascending sequence, before the first larger
      element. */
  function Insert(x: int, s: seq<int>): (r: seq<int>)
    ensures |r| == |s| + 1 && multiset(r) == multiset(s) + multiset{x}
  {
    if s == [] || x <= s[0] then
      [x] + s
    else
      assert s == [s[0]] + s[1..];
      [s[0]] + Insert(x, s[1..])
  }

  lemma {:induction false} InsertSorted(x: int, s: seq<int>)
    requires Sorted(s)
    ensures Sorted(Insert(x, s))
  {
    if s != [] && x > s[0] {
      InsertSorted(x, s[1..]);
      InsertAbove(x, s[1..], s[0]);
    }
  }

  /** Inserting a value no smaller than lo into values no smaller than lo
      keeps every value no smaller than lo. */
  lemma {:induction false} InsertAbove(x: int, s: seq<int>, lo: int)
    requires lo <= x && forall k :: 0 <= k < |s| ==> lo <= s[k]
    ensures forall k :: 0 <= k < |Insert(x, s)| ==> lo <= Insert(x, s)[k]
  {
    if s != [] && x > s[0] {
      InsertAbove(x, s[1..], lo);
    }
  }

  /** The ascending arrangement of a sequence, by insertion. */
  function SortSeq(s: seq<int>): (r: seq<int>)
    ensures |r| == |s| && multiset(r) == multiset(s)
  {
    if s == [] then []
    else
      assert s == [s[0]] + s[1..];
      Insert(s[0], SortSeq(s[1..]))
  }

  lemma {:induction false} SortSeqSorted(s: seq<int>)
    ensures Sorted(SortSeq(s))
  {
    if s != [] {
      SortSeqSorted(s[1..]);
      InsertSorted(s[0], SortSeq(s[1..]));
    }
  }

  /** The least element of an ascending sequence is its first. */
  lemma FirstIsLeast(a: seq<int>, x: int)
    requires Sorted(a) && x in multiset(a)
    ensures a[0] <= x
  {
    var i :| 0 <= i < |a| && a[i] == x;
  }

  /** A multiset has exactly one ascending arrangement. */
  lemma {:induction false} SortedUnique(a: seq<int>, b: seq<int>)
    requires Sorted(a) && Sorted(b) && multiset(a) == multiset(b)
    ensures a == b
    decreases |a|
  {
    if a == [] || b == [] {
      assert |a| == |multiset(a)| == |multiset(b)| == |b|;
    } else {
      FirstIsLeast(a, b[0]);
      FirstIsLeast(b, a[0]);
      assert a[0] == b[0];
      DropFirst(a);
      DropFirst(b);
      SortedUnique(a[1..], b[1..]);
    }
  }

  lemma DropFirst(a: seq<int>)
    requires a != []
    ensures multiset(a[1..]) == multiset(a) - multiset{a[0]}
  {
    assert a == [a[0]] + a[1..];
  }

  /** Any ascending arrangement of s is SortSeq(s). */
  lemma SortedIsSortSeq(s: seq<int>, t: seq<int>)
    requires Sorted(t) && multiset(t) == multiset(s)
    ensures t == SortSeq(s)
  {
    SortSeqSorted(s);
    SortedUnique(t, SortSeq(s));
  }

  /** The index of a least element of a[i..]. */
  method LeastFrom(a: array<int>, i: int) returns (m: int)
    requires 0 <= i < a.Length
    ensures i <= m < a.Length && forall q :: i <= q < a.Length ==> a[m] <= a[q]
  {
    m := i;
    for j := i + 1 to a.Length
      invariant i <= m < a.Length
      invariant forall q :: i <= q < j ==> a[m] <= a[q]
    {
      if a[j] < a[m] {
        m := j;
      }
    }
  }

  /** sort.Ints: the IDs in ascending order, in place. The library's own
      algorithm is not modelled; any in-place sort meets this contract. */
  method SortInts(a: array<int>)
    modifies a
    ensures Sorted(a[..]) && multiset(a[..]) == multiset(old(a[..]))
    ensures a[..] == SortSeq(old(a[..]))
  {
    for i := 0 to a.Length
      invariant forall p, q :: 0 <= p < i && p < q < a.Length ==> a[p] <= a[q]
      invariant multiset(a[..]) == multiset(old(a[..]))
    {
      var m := LeastFrom(a, i);
      a[i], a[m] := a[m], a[i];
    }
    assert Sorted(a[..]);
    SortedIsSortSeq(old(a[..]), a[..]);
  }

  // ------------------------------------------------------------ solutionA

  /** The sum of the distances between ls[i] and rs[i] over the indices of
      ls. */
  function Distance(ls: seq<int>, rs: seq<int>): int
    requires |ls| <= |rs|
  {
    if ls == [] then 0
    else Distance(ls[..|ls| - 1], rs) + Abs(ls[|ls| - 1] - rs[|ls| - 1])
  }

  /** The total distance is never negative, and it is zero exactly when
      every left ID equals its partner. */
  lemma {:induction false} DistanceZero(ls: seq<int>, rs: seq<int>)
    requires |ls| <= |rs|
    ensures Distance(ls, rs) >= 0
    ensures Distance(ls, rs) == 0 <==> ls == rs[..|ls|]
  {
    if ls != [] {
      var n := |ls| - 1;
      DistanceZero(ls[..n], rs);
      if ls == rs[..|ls|] {
        assert ls[..n] == rs[..n];
      }
      if Distance(ls, rs) == 0 {
        assert ls == ls[..n] + [ls[n]] && rs[..|ls|] == rs[..n] + [rs[n]];
      }
    }
  }

  /** The loop of solutionA over the sorted arrays. */
  method SumDistances(leftList: array<int>, rightList: array<int>) returns (solution: int)
    requires leftList.Length <= rightList.Length
    ensures solution == Distance(leftList[..], rightList[..])
  {
    solution := 0;
    for i := 0 to leftList.Length
      invariant solution == Distance(leftList[..i], rightList[..])
    {
      var rightItem := rightList[i];
      var dist := Abs(leftList[i] - rightItem);
      solution := solution + dist;
      assert leftList[..i + 1][..i] == leftList[..i];
    }
    assert leftList[..leftList.Length] == leftList[..];
  }

  /** The body of solutionA after GetInputs: both lists copied into
      arrays, sorted ascending in place, then paired index by index. */
  method SortedDistance(left: seq<int>, right: seq<int>) returns (solution: int)
    requires |left| <= |right|
    ensures solution == Distance(SortSeq(left), SortSeq(right))
    ensures solution >= 0
  {
    var leftList := new int[|left|](k requires 0 <= k < |left| => left[k]);
    var rightList := new int[|right|](k requires 0 <= k < |right| => right[k]);
    assert leftList[..] == left;
    assert rightList[..] == right;
    SortInts(leftList);
    ghost var sortedLeft := leftList[..];
    assert sortedLeft == SortSeq(left);
    SortInts(rightList);
    assert leftList[..] == sortedLeft;
    assert rightList[..] == SortSeq(right);
    solution := SumDistances(leftList, rightList);
    DistanceZero(SortSeq(left), SortSeq(right));
  }

  /** solutionA. The source indexes the right list by every left index and
      panics when it is shorter. */
  method SolutionA(inputMemory: string) returns (solution: int)
    requires Paired(Lines(inputMemory))
    requires |LeftIds(inputMemory)| <= |RightIds(inputMemory)|
    ensures solution == Distance(SortSeq(LeftIds(inputMemory)),
                                 SortSeq(RightIds(inputMemory)))
    ensures solution >= 0
  {
    var left, right := GetInputs(inputMemory);
    solution := SortedDistance(left, right);
  }

  // ------------------------------------------------------------ solutionB

  /** How many times x occurs in rs. */
  function Occurrences(rs: seq<int>, x: int): nat
  {
    if rs == [] then 0
    else Occurrences(rs[..|rs| - 1], x) + (if rs[|rs| - 1] == x then 1 else 0)
  }

  /** The count is the multiplicity of x in the right list. */
  lemma {:induction false} OccurrencesMultiplicity(rs: seq<int>, x: int)
    ensures Occurrences(rs, x) == multiset(rs)[x]
  {
    if rs != [] {
      OccurrencesMultiplicity(rs[..|rs| - 1], x);
      assert rs == rs[..|rs| - 1] + [rs[|rs| - 1]];
    }
  }

  /** The similarity score: every left ID times its number of occurrences
      in the right list. */
  function Similarity(ls: seq<int>, rs: seq<int>): int
  {
    if ls == [] then 0
    else Similarity(ls[..|ls| - 1], rs) + ls[|ls| - 1] * Occurrences(rs, ls[|ls| - 1])
  }

  /** The score is 0 when no left ID occurs in the right list. */
  lemma {:induction false} SimilarityDisjoint(ls: seq<int>, rs: seq<int>)
    requires forall k :: 0 <= k < |ls| ==> ls[k] !in rs
    ensures Similarity(ls, rs) == 0
  {
    if ls != [] {
      OccurrencesMultiplicity(rs, ls[|ls| - 1]);
      SimilarityDisjoint(ls[..|ls| - 1], rs);
    }
  }

  /** The score depends on the right list only through its multiset of
      IDs: reordering the right list does not change it. */
  lemma {:induction false} SimilarityOrderFree(ls: seq<int>, rs: seq<int>, rs': seq<int>)
    requires multiset(rs) == multiset(rs')
    ensures Similarity(ls, rs) == Similarity(ls, rs')
  {
    if ls != [] {
      OccurrencesMultiplicity(rs, ls[|ls| - 1]);
      OccurrencesMultiplicity(rs', ls[|ls| - 1]);
      SimilarityOrderFree(ls[..|ls| - 1], rs, rs');
    }
  }

  /** The inner loop of solutionB. */
  method CountOccurrences(leftItem: int, rightList: seq<int>) returns (count: int)
    ensures count == Occurrences(rightList, leftItem)
  {
    count := 0;
    for j := 0 to |rightList|
      invariant count == Occurrences(rightList[..j], leftItem)
    {
      if leftItem == rightList[j] {
        count := count + 1;
      }
      assert rightList[..j + 1][..j] == rightList[..j];
    }
    assert rightList[..|rightList|] == rightList;
  }

  /** solutionB: for every left ID, count its occurrences in the right
      list and add the product. */
  method SolutionB(inputMemory: string) returns (solution: int)
    requires Paired(Lines(inputMemory))
    ensures solution == Similarity(LeftIds(inputMemory),
                                   RightIds(inputMemory))
  {
    var leftList, rightList := GetInputs(inputMemory);
    solution := 0;
    for i := 0 to |leftList|
      invariant solution == Similarity(leftList[..i], rightList)
    {
      var count := CountOccurrences(leftList[i], rightList);
      solution := solution + leftList[i] * count;
      assert leftList[..i + 1][..i] == leftList[..i];
    }
    assert leftList[..|leftList|] == leftList;
  }

  /** Day1: both parts on the same input. */
  method Day1(inputMemory: string) returns (solutionA: int, solutionB: int)
    requires Paired(Lines(inputMemory))
    requires |LeftIds(inputMemory)| <= |RightIds(inputMemory)|
    ensures solutionA == Distance(SortSeq(LeftIds(inputMemory)),
                                  SortSeq(RightIds(inputMemory)))
    ensures solutionB == Similarity(LeftIds(inputMemory),
                                    RightIds(inputMemory))
  {
    solutionA := SolutionA(inputMemory);
    solutionB := SolutionB(inputMemory);
  }
}
