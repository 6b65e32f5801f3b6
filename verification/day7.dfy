/** Day 7: bridge-repair equations. Each line "target: v1 v2 ... vn" asks
    whether operators placed between the values, evaluated strictly left to
    right, can produce the target. Part 1 allows + and *; part 2 also allows
    concatenation of decimal texts. The solver enumerates every result with a
    recursive search that appends into a shared result list, then sums the
    targets that appear among their equation's results. */
module Day7 {
  import opened GoText

  datatype Op = Plus | Times | Concat

  /** One line, parsed; possibleResults is filled in later. */
  datatype Equation = Equation(targetResult: int, inputValues: seq<int>, possibleResults: seq<int>)

  /** Concatenation on numbers: the left operand shifted by the digit count
      of the right one, plus the right one. A negative right operand gives 0,
      and a negative left operand keeps its sign in front. */
  function ConcatValues(result: int, value: int): int
  {
    if value < 0 then 0
    else if result >= 0 then result * Pow10(NumDigits(value)) + value
    else -((-result) * Pow10(NumDigits(value)) + value)
  }

  /** The arithmetic agrees with what the Go code does on text: both numbers
      rendered in decimal one after the other, the text parsed back with
      ParseInt and a parse error giving 0 (a minus sign inside the text). */
  lemma ConcatMatchesText(a: int, b: int)
    ensures ConcatValues(a, b) == AtoiOrZero(FormatInt(a) + FormatInt(b))
  {
    if b < 0 {
      ConcatNegativeRight(a, b);
    } else if a >= 0 {
      ConcatNonNegative(a, b);
    } else {
      ConcatNegativeLeft(a, b);
    }
  }

  lemma ConcatNonNegative(a: int, b: int)
    requires a >= 0 && b >= 0
    ensures AtoiOrZero(FormatInt(a) + FormatInt(b)) == a * Pow10(NumDigits(b)) + b
  {
    var left, right := FormatNat(a), FormatNat(b);
    FormatNatFacts(a);
    FormatNatFacts(b);
    DigitsValueAppend(left, right);
    assert ParseInt(left + right) == Some(DigitsValue(left + right));
  }

  lemma ConcatNegativeLeft(a: int, b: int)
    requires a < 0 && b >= 0
    ensures AtoiOrZero(FormatInt(a) + FormatInt(b)) == -((-a) * Pow10(NumDigits(b)) + b)
  {
    var left, right := FormatNat(-a), FormatNat(b);
    FormatNatFacts(-a);
    FormatNatFacts(b);
    DigitsValueAppend(left, right);
    var digits := left + right;
    var text := "-" + digits;
    assert FormatInt(a) + FormatInt(b) == text;
    assert DigitsValue(digits) == (-a) * Pow10(NumDigits(b)) + b;
    assert text[0] == '-' && text[1..] == digits && |digits| > 0;
    assert ParseInt(text) == Some(-(DigitsValue(digits) as int));
  }

  lemma ConcatNegativeRight(a: int, b: int)
    requires b < 0
    ensures AtoiOrZero(FormatInt(a) + FormatInt(b)) == 0
  {
    var text := FormatInt(a) + FormatInt(b);
    var m := |FormatInt(a)|;
    FormatIntChars(a);
    FormatNatFacts(if a < 0 then -a else a);
    assert text[m] == '-';
    if |text| > 0 && (text[0] == '+' || text[0] == '-') {
      assert text[1..][m - 1] == '-';
      assert !AllDigits(text[1..]);
    } else {
      assert !AllDigits(text);
    }
  }

  function Apply(op: Op, result: int, value: int): int
  {
    match op
    case Plus => result + value
    case Times => result * value
    case Concat => ConcatValues(result, value)
  }

  /** Operators allowed in the part: concatenation only in part 2. */
  predicate Allowed(ops: seq<Op>, isPart2: bool)
  {
    forall k :: 0 <= k < |ops| ==> ops[k] != Concat || isPart2
  }

  /** Reference evaluation: the operators applied strictly left to right,
      starting from acc, to the values from index on. */
  function EvalFrom(values: seq<int>, index: nat, acc: int, ops: seq<Op>): int
    requires index <= |values| && |ops| == |values| - index
    decreases |ops|
  {
    if index == |values| then acc
    else EvalFrom(values, index + 1, Apply(ops[0], acc, values[index]), ops[1..])
  }

  /** What calcNextInput appends: the operator applied to the value at index,
      then, if values remain, every continuation with +, * and (in part 2)
      concatenation, in that order. */
  function CalcResults(values: seq<int>, index: nat, result: int, op: Op, isPart2: bool): seq<int>
    requires index < |values|
    decreases |values| - index
  {
    var next := Apply(op, result, values[index]);
    if index == |values| - 1 then [next]
    else
      CalcResults(values, index + 1, next, Plus, isPart2)
      + CalcResults(values, index + 1, next, Times, isPart2)
      + (if isPart2 then CalcResults(values, index + 1, next, Concat, isPart2) else [])
  }

  /** Number of operators available in the part. */
  function OpCount(isPart2: bool): nat
  {
    if isPart2 then 3 else 2
  }

  function Pow(b: nat, k: nat): nat
  {
    if k == 0 then 1 else b * Pow(b, k - 1)
  }

  /** One result per choice of the remaining operators. */
  lemma {:induction false} CalcResultsLength(values: seq<int>, index: nat, result: int, op: Op, isPart2: bool)
    requires index < |values|
    ensures |CalcResults(values, index, result, op, isPart2)| == Pow(OpCount(isPart2), |values| - 1 - index)
    decreases |values| - index
  {
    if index < |values| - 1 {
      var next := Apply(op, result, values[index]);
      CalcResultsLength(values, index + 1, next, Plus, isPart2);
      CalcResultsLength(values, index + 1, next, Times, isPart2);
      CalcResultsLength(values, index + 1, next, Concat, isPart2);
    }
  }

  /** Every allowed choice of the remaining operators has its left-to-right
      evaluation among the results. */
  lemma {:induction false} CalcResultsComplete(values: seq<int>, index: nat, result: int, op: Op, isPart2: bool,
                                               ops: seq<Op>)
    requires index < |values| && |ops| == |values| - 1 - index && Allowed(ops, isPart2)
    ensures EvalFrom(values, index + 1, Apply(op, result, values[index]), ops) in CalcResults(values, index, result, op, isPart2)
    decreases |values| - index
  {
    if index < |values| - 1 {
      var next := Apply(op, result, values[index]);
      assert Allowed(ops[1..], isPart2);
      CalcResultsComplete(values, index + 1, next, ops[0], isPart2, ops[1..]);
    }
  }

  /** Every result is the left-to-right evaluation of some allowed choice of
      the remaining operators. */
  lemma {:induction false} CalcResultsSound(values: seq<int>, index: nat, result: int, op: Op, isPart2: bool, x: int)
    requires index < |values| && x in CalcResults(values, index, result, op, isPart2)
    ensures exists ops :: |ops| == |values| - 1 - index && Allowed(ops, isPart2)
                          && EvalFrom(values, index + 1, Apply(op, result, values[index]), ops) == x
    decreases |values| - index
  {
    var next := Apply(op, result, values[index]);
    if index == |values| - 1 {
      assert Allowed([], isPart2) && EvalFrom(values, index + 1, next, []) == x;
    } else {
      var op' := if x in CalcResults(values, index + 1, next, Plus, isPart2) then Plus
                 else if x in CalcResults(values, index + 1, next, Times, isPart2) then Times
                 else Concat;
      assert x in CalcResults(values, index + 1, next, op', isPart2) && (op' != Concat || isPart2);
      CalcResultsSound(values, index + 1, next, op', isPart2, x);
      var rest :| |rest| == |values| - 2 - index && Allowed(rest, isPart2)
                  && EvalFrom(values, index + 2, Apply(op', next, values[index + 1]), rest) == x;
      var ops := [op'] + rest;
      assert ops[1..] == rest;
      assert EvalFrom(values, index + 1, next, ops) == x;
    }
  }

  /** All results of an equation: the first value, then each operator for
      the second value and every continuation. There must be at least two
      values, as the Go code reads the second one unconditionally. */
  function EquationResults(values: seq<int>, isPart2: bool): seq<int>
    requires |values| >= 2
  {
    CalcResults(values, 1, values[0], Plus, isPart2)
    + CalcResults(values, 1, values[0], Times, isPart2)
    + (if isPart2 then CalcResults(values, 1, values[0], Concat, isPart2) else [])
  }

  /** With n values there are 2^(n-1) results in part 1 and 3^(n-1) in part 2. */
  lemma EquationResultsLength(values: seq<int>, isPart2: bool)
    requires |values| >= 2
    ensures |EquationResults(values, isPart2)| == Pow(OpCount(isPart2), |values| - 1)
  {
    CalcResultsLength(values, 1, values[0], Plus, isPart2);
    CalcResultsLength(values, 1, values[0], Times, isPart2);
    CalcResultsLength(values, 1, values[0], Concat, isPart2);
  }

  /** A number is a result of the equation exactly when some allowed choice
      of the n-1 operators, applied left to right starting from the first
      value, produces it. */
  lemma EquationResultsMeaning(values: seq<int>, isPart2: bool, x: int)
    requires |values| >= 2
    ensures x in EquationResults(values, isPart2) <==>
              exists ops :: |ops| == |values| - 1 && Allowed(ops, isPart2) && EvalFrom(values, 1, values[0], ops) == x
  {
    if x in EquationResults(values, isPart2) {
      EquationResultsSound(values, isPart2, x);
    }
    if exists ops :: |ops| == |values| - 1 && Allowed(ops, isPart2) && EvalFrom(values, 1, values[0], ops) == x {
      var ops :| |ops| == |values| - 1 && Allowed(ops, isPart2) && EvalFrom(values, 1, values[0], ops) == x;
      EquationResultsComplete(values, isPart2, ops);
    }
  }

  /** The equation's results are the search started before the first value
      with 0 and a +. */
  lemma EquationResultsAsSearch(values: seq<int>, isPart2: bool)
    requires |values| >= 2
    ensures EquationResults(values, isPart2) == CalcResults(values, 0, 0, Plus, isPart2)
  {
    assert Apply(Plus, 0, values[0]) == values[0];
  }

  lemma EquationResultsSound(values: seq<int>, isPart2: bool, x: int)
    requires |values| >= 2 && x in EquationResults(values, isPart2)
    ensures exists ops :: |ops| == |values| - 1 && Allowed(ops, isPart2) && EvalFrom(values, 1, values[0], ops) == x
  {
    EquationResultsAsSearch(values, isPart2);
    CalcResultsSound(values, 0, 0, Plus, isPart2, x);
    assert Apply(Plus, 0, values[0]) == values[0];
  }

  lemma EquationResultsComplete(values: seq<int>, isPart2: bool, ops: seq<Op>)
    requires |values| >= 2 && |ops| == |values| - 1 && Allowed(ops, isPart2)
    ensures EvalFrom(values, 1, values[0], ops) in EquationResults(values, isPart2)
  {
    EquationResultsAsSearch(values, isPart2);
    CalcResultsComplete(values, 0, 0, Plus, isPart2, ops);
    assert Apply(Plus, 0, values[0]) == values[0];
  }

  /** Every part-1 result is also a part-2 result. */
  lemma Part1ResultsArePart2Results(values: seq<int>, x: int)
    requires |values| >= 2
    ensures x in EquationResults(values, false) ==> x in EquationResults(values, true)
  {
    if x in EquationResults(values, false) {
      EquationResultsMeaning(values, false, x);
      var ops :| |ops| == |values| - 1 && Allowed(ops, false) && EvalFrom(values, 1, values[0], ops) == x;
      assert Allowed(ops, true);
      EquationResultsMeaning(values, true, x);
    }
  }

  /** The pointer to the shared result list of calcNextInput. */
  class ResultList {
    var allResults: seq<int>

    constructor ()
      ensures allResults == []
    {
      allResults := [];
    }
  }

  lemma AppendAssociates(a: seq<int>, b: seq<int>, c: seq<int>, d: seq<int>)
    ensures a + b + c + d == a + (b + c + d)
  {
    assert a + b + c == a + (b + c);
    assert a + (b + c) + d == a + (b + c + d);
  }

  /** calcNextInput: applies the operator to the value at index and either
      records the result (last value) or recurses with each operator. */
  method CalcNextInput(inputList: seq<int>, index: nat, result: int, operator: Op,
                       allResults: ResultList, isPart2: bool)
    requires index < |inputList|
    modifies allResults
    decreases |inputList| - index
    ensures allResults.allResults == old(allResults.allResults) + CalcResults(inputList, index, result, operator, isPart2)
  {
    var value := inputList[index];
    var next := Apply(operator, result, value);
    if index == |inputList| - 1 {
      allResults.allResults := allResults.allResults + [next];
    } else {
      ghost var before := allResults.allResults;
      ghost var plus := CalcResults(inputList, index + 1, next, Plus, isPart2);
      ghost var times := CalcResults(inputList, index + 1, next, Times, isPart2);
      ghost var concat := if isPart2 then CalcResults(inputList, index + 1, next, Concat, isPart2) else [];
      assert CalcResults(inputList, index, result, operator, isPart2) == plus + times + concat;
      CalcNextInput(inputList, index + 1, next, Plus, allResults, isPart2);
      CalcNextInput(inputList, index + 1, next, Times, allResults, isPart2);
      assert allResults.allResults == before + plus + times;
      if isPart2 {
        CalcNextInput(inputList, index + 1, next, Concat, allResults, isPart2);
      }
      assert allResults.allResults == before + plus + times + concat;
      AppendAssociates(before, plus, times, concat);
    }
  }

  /** The results of one equation, as the loop of day7part1 computes them. */
  method SolveEquation(values: seq<int>, isPart2: bool) returns (possibleResults: seq<int>)
    requires |values| >= 2
    ensures possibleResults == EquationResults(values, isPart2)
  {
    var allResults := new ResultList();
    CalcNextInput(values, 1, values[0], Plus, allResults, isPart2);
    CalcNextInput(values, 1, values[0], Times, allResults, isPart2);
    if isPart2 {
      CalcNextInput(values, 1, values[0], Concat, allResults, isPart2);
    }
    possibleResults := allResults.allResults;
  }

  /** The text after the first ": " of a line, split on single spaces. */
  function ValueFields(inputString: string): seq<string>
    requires Contains(inputString, ": ")
  {
    var splitString := Split(inputString, ": ");
    assert |splitString| >= 2;
    Split(splitString[1], " ")
  }

  /** Each field read with Atoi, 0 when it does not parse. */
  function ParseValues(fields: seq<string>): (values: seq<int>)
    ensures |values| == |fields|
    ensures forall k :: 0 <= k < |fields| ==> values[k] == AtoiOrZero(fields[k])
  {
    if fields == [] then [] else [AtoiOrZero(fields[0])] + ParseValues(fields[1..])
  }

  /** A line as NewEquation reads it, before any results are known. */
  function ParseEquation(line: string): Equation
    requires Contains(line, ": ")
  {
    Equation(AtoiOrZero(Split(line, ": ")[0]), ParseValues(ValueFields(line)), [])
  }

  /** NewEquation: the target is the text before the first ": ", and the
      values are the fields after it; a field that does not parse gives 0
      and is kept. The source indexes the second piece, so the line must
      contain ": ". */
  method NewEquation(inputString: string) returns (equation: Equation)
    requires Contains(inputString, ": ")
    ensures equation.targetResult == AtoiOrZero(Split(inputString, ": ")[0])
    ensures equation.inputValues == ParseValues(ValueFields(inputString))
    ensures equation.possibleResults == []
    ensures equation == ParseEquation(inputString)
  {
    var splitString := Split(inputString, ": ");
    var targetResult := AtoiOrZero(splitString[0]);
    var fields := Split(splitString[1], " ");
    var inputValues := [];
    var k := 0;
    while k < |fields|
      invariant 0 <= k <= |fields|
      invariant |inputValues| == k
      invariant forall m :: 0 <= m < k ==> inputValues[m] == AtoiOrZero(fields[m])
    {
      inputValues := inputValues + [AtoiOrZero(fields[k])];
      k := k + 1;
    }
    assert inputValues == ParseValues(fields);
    equation := Equation(targetResult, inputValues, []);
  }

  /** The decimal texts of the numbers. */
  function Texts(values: seq<int>): (texts: seq<string>)
    ensures |texts| == |values|
    ensures forall k :: 0 <= k < |values| ==> texts[k] == FormatInt(values[k])
  {
    if values == [] then [] else [FormatInt(values[0])] + Texts(values[1..])
  }

  /** Parsing a line written as "target: v1 v2 ... vn" gives back the target
      and the values. */
  lemma EquationLineRoundTrip(target: int, values: seq<int>)
    requires |values| >= 1
    ensures var line := FormatInt(target) + ": " + Join(Texts(values), " ");
            Contains(line, ": ")
            && AtoiOrZero(Split(line, ": ")[0]) == target
            && |ValueFields(line)| == |values|
            && forall k :: 0 <= k < |values| ==> AtoiOrZero(ValueFields(line)[k]) == values[k]
  {
    var texts := Texts(values);
    var rest := Join(texts, " ");
    var line := FormatInt(target) + ": " + rest;
    FormatIntChars(target);
    IndexAfterFreePrefix(FormatInt(target), ": ", rest);
    assert line[..|FormatInt(target)|] == FormatInt(target);
    assert line[|FormatInt(target)| + 2..] == rest;
    forall k | 0 <= k < |texts|
      ensures ' ' !in texts[k] && ':' !in texts[k]
    {
      FormatIntChars(values[k]);
    }
    JoinFree(texts, " ", ':');
    SplitWithoutSep(rest, ": ");
    assert Split(line, ": ") == [FormatInt(target), rest];
    SplitJoinInverse(texts, " ");
    ParseFormatRoundTrip(target);
    forall k | 0 <= k < |values|
      ensures AtoiOrZero(ValueFields(line)[k]) == values[k]
    {
      ParseFormatRoundTrip(values[k]);
    }
  }

  /** Sum of the targets that occur among their equation's results, each
      equation counted at most once. */
  function SuccessSum(equations: seq<Equation>): int
  {
    if |equations| == 0 then 0
    else
      var last := equations[|equations| - 1];
      SuccessSum(equations[..|equations| - 1])
      + (if last.targetResult in last.possibleResults then last.targetResult else 0)
  }

  /** The matching loop of day7part1: for each equation, the first result
      equal to the target adds the target once and ends the scan. */
  method SumSuccessTargets(equations: seq<Equation>) returns (sumSuccessTargets: int)
    ensures sumSuccessTargets == SuccessSum(equations)
  {
    sumSuccessTargets := 0;
    var e := 0;
    while e < |equations|
      invariant 0 <= e <= |equations|
      invariant sumSuccessTargets == SuccessSum(equations[..e])
    {
      var equation := equations[e];
      assert equations[..e + 1][..e] == equations[..e];
      var r := 0;
      while r < |equation.possibleResults|
        invariant 0 <= r <= |equation.possibleResults|
        invariant equation.targetResult !in equation.possibleResults[..r]
      {
        if equation.possibleResults[r] == equation.targetResult {
          sumSuccessTargets := sumSuccessTargets + equation.targetResult;
          break;
        }
        assert equation.possibleResults[..r + 1] == equation.possibleResults[..r] + [equation.possibleResults[r]];
        r := r + 1;
      }
      if r == |equation.possibleResults| {
        assert equation.possibleResults[..r] == equation.possibleResults;
      }
      e := e + 1;
    }
    assert equations[..e] == equations;
  }

  /** A line the Go code can process: it contains ": " and has at least two
      values after it. */
  predicate WellFormedLine(line: string)
  {
    Contains(line, ": ") && |ValueFields(line)| >= 2
  }

  /** Every line is one the Go code can process. */
  predicate AllWellFormed(lines: seq<string>)
  {
    forall k :: 0 <= k < |lines| ==> WellFormedLine(lines[k])
  }

  /** One line as day7part1 leaves it: target, values and all results. */
  function SolvedLine(line: string, isPart2: bool): Equation
    requires WellFormedLine(line)
  {
    var equation := ParseEquation(line);
    equation.(possibleResults := EquationResults(equation.inputValues, isPart2))
  }

  /** Every line solved, in input order. */
  function Solved(lines: seq<string>, isPart2: bool): (equations: seq<Equation>)
    requires AllWellFormed(lines)
    ensures |equations| == |lines|
    ensures forall k :: 0 <= k < |lines| ==> equations[k] == SolvedLine(lines[k], isPart2)
  {
    if lines == [] then []
    else Solved(lines[..|lines| - 1], isPart2) + [SolvedLine(lines[|lines| - 1], isPart2)]
  }

  /** The parsing loop of day7part1: one equation per line. */
  method ParseEquations(inputStrings: seq<string>) returns (equations: seq<Equation>)
    requires AllWellFormed(inputStrings)
    ensures |equations| == |inputStrings|
    ensures forall m :: 0 <= m < |equations| ==> equations[m] == ParseEquation(inputStrings[m])
  {
    equations := [];
    var k := 0;
    while k < |inputStrings|
      invariant 0 <= k <= |inputStrings|
      invariant |equations| == k
      invariant forall m :: 0 <= m < k ==> equations[m] == ParseEquation(inputStrings[m])
    {
      var equation := NewEquation(inputStrings[k]);
      equations := equations + [equation];
      k := k + 1;
    }
  }

  /** The solving loop of day7part1: each equation gets all its results. */
  method SolveEquations(parsed: seq<Equation>, isPart2: bool) returns (equations: seq<Equation>)
    requires forall m :: 0 <= m < |parsed| ==> |parsed[m].inputValues| >= 2
    ensures |equations| == |parsed|
    ensures forall m :: 0 <= m < |parsed| ==>
              equations[m] == parsed[m].(possibleResults := EquationResults(parsed[m].inputValues, isPart2))
  {
    equations := parsed;
    var k := 0;
    while k < |equations|
      invariant 0 <= k <= |equations| == |parsed|
      invariant forall m :: k <= m < |parsed| ==> equations[m] == parsed[m]
      invariant forall m :: 0 <= m < k ==>
                  equations[m] == parsed[m].(possibleResults := EquationResults(parsed[m].inputValues, isPart2))
    {
      var allResults := SolveEquation(equations[k].inputValues, isPart2);
      equations := equations[k := equations[k].(possibleResults := allResults)];
      k := k + 1;
    }
  }

  /** day7part1 (and day7part2 through isPart2): every line becomes an
      equation with all its results, and the targets found among them are
      summed. */
  method Day7Part1(inputMemory: string, isPart2: bool) returns (sumSuccessTargets: int, equations: seq<Equation>)
    requires AllWellFormed(Split(inputMemory, "\n"))
    ensures equations == Solved(Split(inputMemory, "\n"), isPart2)
    ensures sumSuccessTargets == SuccessSum(equations)
  {
    var inputStrings := Split(inputMemory, "\n");
    var parsed := ParseEquations(inputStrings);
    equations := SolveEquations(parsed, isPart2);
    assert forall m :: 0 <= m < |equations| ==> equations[m] == SolvedLine(inputStrings[m], isPart2);
    sumSuccessTargets := SumSuccessTargets(equations);
  }

  /** Day7: part 1 with + and *, part 2 also with concatenation. */
  method Day7(inputMemory: string) returns (part1: int, part2: int)
    requires AllWellFormed(Split(inputMemory, "\n"))
    ensures part1 == SuccessSum(Solved(Split(inputMemory, "\n"), false))
    ensures part2 == SuccessSum(Solved(Split(inputMemory, "\n"), true))
  {
    var equations;
    part1, equations := Day7Part1(inputMemory, false);
    part2, equations := Day7Part1(inputMemory, true);
  }

  /** With non-negative targets, part 2 sums at least what part 1 sums:
      every equation part 1 can solve, part 2 can solve too. */
  lemma {:induction false} Part2FindsMore(lines: seq<string>)
    requires AllWellFormed(lines)
    requires forall k :: 0 <= k < |lines| ==> AtoiOrZero(Split(lines[k], ": ")[0]) >= 0
    ensures SuccessSum(Solved(lines, false)) <= SuccessSum(Solved(lines, true))
  {
    if lines != [] {
      var init, last := lines[..|lines| - 1], lines[|lines| - 1];
      Part2FindsMore(init);
      assert Solved(lines, false)[..|lines| - 1] == Solved(init, false);
      assert Solved(lines, true)[..|lines| - 1] == Solved(init, true);
      var values := ParseValues(ValueFields(last));
      Part1ResultsArePart2Results(values, AtoiOrZero(Split(last, ": ")[0]));
    }
  }

  /** The first sample line: 190 = 10 * 19, found in part 1. */
  lemma SampleEquation()
    ensures 190 in EquationResults([10, 19], false)
    ensures EquationResults([10, 19], false) == [29, 190]
  {
  }
}
