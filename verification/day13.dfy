/** Day 13: claw machines. Each stanza of three lines gives the X and Y
    movement of button A, of button B, and the prize position. The solver
    tries every count of A presses below prizeX / buttonAX, derives the B
    presses from the X coordinate, keeps the combinations that land on the
    prize in both coordinates (A costs 3, B costs 1), picks the cheapest one
    per machine and sums those costs. */
module Day13 {
  import opened GoText

  // ------------------------------------------------------------ arithmetic

  /** Go's integer division, which truncates toward zero. */
  function Quot(a: int, b: int): (q: int)
    requires b != 0
    ensures Abs(a - q * b) < Abs(b)
    ensures a - q * b == 0 || (a - q * b < 0 <==> a < 0)
  {
    if a >= 0 then (if b > 0 then a / b else -(a / -b))
    else (if b > 0 then -((-a) / b) else (-a) / (-b))
  }

  function Abs(x: int): nat
  {
    if x < 0 then -x else x
  }

  /** Dividing a multiple of b by b gives the factor back. */
  lemma QuotExact(k: int, b: int)
    requires b != 0
    ensures Quot(k * b, b) == k
  {
    var q := Quot(k * b, b);
    MulDiff(k, q, b);
    if k != q {
      AbsProduct(k - q, b);
    }
  }

  lemma AbsProduct(x: int, y: int)
    requires x >= 1 || x <= -1
    ensures Abs(x * y) >= Abs(y)
  {
    if x >= 1 {
      if y >= 0 {
        assert x * y >= y;
      } else {
        assert x * y <= y;
      }
    } else {
      if y >= 0 {
        assert x * y <= -y;
      } else {
        assert x * y >= -y;
      }
    }
  }

  // ---------------------------------------------------------- the machines

  /** day13Run: the presses of each button and their total cost. */
  datatype Run = Run(buttonAPresses: int, buttonBPresses: int, totalCost: int)

  /** day13Machine: the six numbers of a stanza and the runs found for it. */
  datatype Machine = Machine(buttonAX: int, buttonAY: int, buttonBX: int, buttonBY: int,
                             prizeX: int, prizeY: int, possibleRuns: seq<Run>)

  /** a presses of A and b presses of B land exactly on the prize. */
  predicate Reaches(m: Machine, a: int, b: int)
  {
    a * m.buttonAX + b * m.buttonBX == m.prizeX && a * m.buttonAY + b * m.buttonBY == m.prizeY
  }

  /** The run the search records for a presses of A: none, or the one
      whose B presses are fixed by the X coordinate, when it also reaches
      the prize's Y coordinate. */
  function TryA(m: Machine, a: int): (runs: seq<Run>)
    requires m.buttonBX != 0
  {
    var b := Quot(m.prizeX - a * m.buttonAX, m.buttonBX);
    if Reaches(m, a, b) then [Run(a, b, a * 3 + b)] else []
  }

  /** The runs recorded for A press counts 0, 1, ..., n - 1, in that order. */
  function RunsBelow(m: Machine, n: int): seq<Run>
    requires n > 0 ==> m.buttonBX != 0
    decreases n
  {
    if n <= 0 then [] else RunsBelow(m, n - 1) + TryA(m, n - 1)
  }

  /** The divisions of the search loop are defined: it divides by buttonAX
      in its guard, and by buttonBX only in its body, which runs only when
      prizeX / buttonAX is positive. */
  predicate Searchable(m: Machine)
  {
    m.buttonAX != 0 && (Quot(m.prizeX, m.buttonAX) > 0 ==> m.buttonBX != 0)
  }

  /** The runs the search loop of Day13 records for a machine. */
  function Runs(m: Machine): seq<Run>
    requires Searchable(m)
  {
    RunsBelow(m, Quot(m.prizeX, m.buttonAX))
  }

  /** A machine whose B button does not move along X is still searched when
      prizeX / buttonAX is zero: the loop body, the only place that divides by
      buttonBX, never runs, and no run is recorded. */
  lemma ZeroBSearched(m: Machine)
    requires m == Machine(5, 1, 0, 1, 3, 3, [])
    ensures Searchable(m) && Runs(m) == []
  {
  }

  /** Every recorded run lands on the prize, uses fewer than n presses of
      A, and costs three per A press and one per B press. */
  lemma {:induction false} RunsBelowSound(m: Machine, n: int)
    requires n > 0 ==> m.buttonBX != 0
    ensures forall r :: r in RunsBelow(m, n) ==>
              0 <= r.buttonAPresses < n && Reaches(m, r.buttonAPresses, r.buttonBPresses) &&
              r.totalCost == 3 * r.buttonAPresses + r.buttonBPresses
  {
    if n > 0 {
      RunsBelowSound(m, n - 1);
    }
  }

  /** Every way of landing on the prize with 0 <= a < n presses of A is
      recorded. */
  lemma {:induction false} RunsBelowComplete(m: Machine, n: int, a: int, b: int)
    requires m.buttonBX != 0 && 0 <= a < n && Reaches(m, a, b)
    ensures Run(a, b, 3 * a + b) in RunsBelow(m, n)
  {
    if a == n - 1 {
      assert m.prizeX - a * m.buttonAX == b * m.buttonBX;
      QuotExact(b, m.buttonBX);
      assert TryA(m, a) == [Run(a, b, 3 * a + b)];
    } else {
      RunsBelowComplete(m, n - 1, a, b);
    }
  }

  /** The runs are recorded in strictly increasing order of A presses, so
      no combination is recorded twice. */
  lemma {:induction false} RunsBelowIncreasing(m: Machine, n: int)
    requires n > 0 ==> m.buttonBX != 0
    ensures forall i, j :: 0 <= i < j < |RunsBelow(m, n)| ==>
              RunsBelow(m, n)[i].buttonAPresses < RunsBelow(m, n)[j].buttonAPresses
  {
    if n > 0 {
      RunsBelowIncreasing(m, n - 1);
      RunsBelowSound(m, n - 1);
      var prefix := RunsBelow(m, n - 1);
      assert forall i :: 0 <= i < |prefix| ==> prefix[i] in prefix;
    }
  }

  /** The search loop: A press counts 0 <= a < prizeX / buttonAX in
      increasing order, B presses (prizeX - a * buttonAX) / buttonBX, and
      the combination kept when it lands on the prize in X and in Y. */
  method SearchRuns(machine: Machine) returns (searched: Machine)
    requires Searchable(machine)
    ensures searched == machine.(possibleRuns := machine.possibleRuns + Runs(machine))
  {
    searched := machine;
    var buttonAPresses := 0;
    while buttonAPresses < Quot(machine.prizeX, machine.buttonAX)
      invariant 0 <= buttonAPresses && (buttonAPresses == 0 || buttonAPresses <= Quot(machine.prizeX, machine.buttonAX))
      invariant searched == machine.(possibleRuns := machine.possibleRuns + RunsBelow(machine, buttonAPresses))
      decreases Quot(machine.prizeX, machine.buttonAX) - buttonAPresses
    {
      var xPos := buttonAPresses * machine.buttonAX;
      var buttonBPresses := Quot(machine.prizeX - xPos, machine.buttonBX);
      if buttonAPresses * machine.buttonAX + buttonBPresses * machine.buttonBX == machine.prizeX &&
         buttonAPresses * machine.buttonAY + buttonBPresses * machine.buttonBY == machine.prizeY {
        searched := searched.(possibleRuns := searched.possibleRuns +
                                [Run(buttonAPresses, buttonBPresses, buttonAPresses * 3 + buttonBPresses)]);
      }
      buttonAPresses := buttonAPresses + 1;
    }
  }

  // ------------------------------------------------------------ the finding

  /** A machine won by A presses alone, exactly prizeX / buttonAX of
      them: the bound `a < prizeX / buttonAX` stops one short, so nothing is
      recorded although the prize can be won for 15. */
  lemma MissedAtTheBound(m: Machine)
    requires m == Machine(2, 2, 3, 7, 10, 10, [])
    ensures Runs(m) == []
    ensures Reaches(m, 5, 0)
  {
    assert Quot(10, 2) == 5;
    assert Quot(10, 3) == 3 && Quot(8, 3) == 2 && Quot(6, 3) == 2 && Quot(4, 3) == 1 && Quot(2, 3) == 0;
    assert RunsBelow(m, 1) == [];
    assert RunsBelow(m, 2) == [];
    assert RunsBelow(m, 3) == [];
    assert RunsBelow(m, 4) == [];
    assert RunsBelow(m, 5) == [];
  }

  /** The search with the bound the puzzle needs: a <= prizeX / buttonAX. */
  function AllRuns(m: Machine): seq<Run>
    requires m.buttonAX != 0 && m.buttonBX != 0
  {
    RunsBelow(m, Quot(m.prizeX, m.buttonAX) + 1)
  }

  /** With buttons that move forward, the inclusive bound records every
      way of winning the prize with non-negative presses. */
  lemma AllRunsComplete(m: Machine, a: int, b: int)
    requires m.buttonAX > 0 && m.buttonBX > 0 && a >= 0 && b >= 0 && Reaches(m, a, b)
    ensures Run(a, b, 3 * a + b) in AllRuns(m)
  {
    var q := Quot(m.prizeX, m.buttonAX);
    PressesWithinBound(m.prizeX, m.buttonAX, m.buttonBX, a, b);
    RunsBelowComplete(m, q + 1, a, b);
  }

  /** a * ax + b * bx == px with b >= 0 and positive steps keeps a at or
      below px / ax. */
  lemma PressesWithinBound(px: int, ax: int, bx: int, a: int, b: int)
    requires ax > 0 && bx > 0 && a >= 0 && b >= 0 && a * ax + b * bx == px
    ensures a <= Quot(px, ax)
  {
    var q := Quot(px, ax);
    MulAtLeast(bx, b);
    if a > q {
      MulDiff(a, q, ax);
      MulAtLeast(a - q, ax);
    }
  }

  // ------------------------------------------------------------ the winner

  /** The winner loop: a run replaces the winner only when strictly
      cheaper, so the first of the cheapest runs wins. */
  function Cheapest(runs: seq<Run>): Option<Run>
  {
    if runs == [] then None
    else
      var winner := Cheapest(runs[..|runs| - 1]);
      var run := runs[|runs| - 1];
      if winner.None? || run.totalCost < winner.value.totalCost then Some(run) else winner
  }

  /** There is a winner exactly when there is a run; it is one of the runs
      and none costs less. */
  lemma {:induction false} CheapestIsMinimum(runs: seq<Run>)
    ensures Cheapest(runs).None? <==> runs == []
    ensures Cheapest(runs).Some? ==>
              Cheapest(runs).value in runs &&
              forall j :: 0 <= j < |runs| ==> runs[j].totalCost >= Cheapest(runs).value.totalCost
  {
    if runs != [] {
      var prefix := runs[..|runs| - 1];
      CheapestIsMinimum(prefix);
      assert runs == prefix + [runs[|runs| - 1]];
    }
  }

  /** Among runs of equal least cost the first one wins, because a later
      run replaces the winner only when strictly cheaper. */
  lemma {:induction false} CheapestIsFirst(runs: seq<Run>, i: int)
    requires 0 <= i < |runs|
    requires forall j :: 0 <= j < |runs| ==> runs[j].totalCost >= runs[i].totalCost
    requires forall j :: 0 <= j < i ==> runs[j].totalCost > runs[i].totalCost
    ensures Cheapest(runs) == Some(runs[i])
  {
    var prefix := runs[..|runs| - 1];
    if i == |runs| - 1 {
      CheapestIsMinimum(prefix);
      if prefix != [] {
        var w := Cheapest(prefix).value;
        var k :| 0 <= k < |prefix| && prefix[k] == w;
        assert runs[k] == w;
      }
    } else {
      assert forall j :: 0 <= j < |prefix| ==> prefix[j] == runs[j];
      CheapestIsFirst(prefix, i);
    }
  }

  method Winner(possibleRuns: seq<Run>) returns (winner: Option<Run>)
    ensures winner == Cheapest(possibleRuns)
  {
    winner := None;
    for k := 0 to |possibleRuns|
      invariant winner == Cheapest(possibleRuns[..k])
    {
      var run := possibleRuns[k];
      assert possibleRuns[..k + 1][..k] == possibleRuns[..k];
      if winner == None || run.totalCost < winner.value.totalCost {
        winner := Some(run);
      }
    }
    assert possibleRuns[..|possibleRuns|] == possibleRuns;
  }

  /** With the inclusive bound, a machine that can be won with
      non-negative presses has a winner, and it costs no more than any way
      of winning it. */
  lemma CorrectedWinnerIsCheapest(m: Machine, a: int, b: int)
    requires m.buttonAX > 0 && m.buttonBX > 0 && a >= 0 && b >= 0 && Reaches(m, a, b)
    ensures Cheapest(AllRuns(m)).Some? && Cheapest(AllRuns(m)).value.totalCost <= 3 * a + b
  {
    var runs := AllRuns(m);
    AllRunsComplete(m, a, b);
    CheapestIsMinimum(runs);
    var i :| 0 <= i < |runs| && runs[i] == Run(a, b, 3 * a + b);
  }

  /** machineWithWinner: the number of machines with at least one run. */
  function WinnerCount(machines: seq<Machine>): (n: nat)
    ensures n <= |machines|
  {
    if machines == [] then 0
    else WinnerCount(machines[..|machines| - 1]) + (if Cheapest(machines[|machines| - 1].possibleRuns).Some? then 1 else 0)
  }

  /** allCosts: the sum of the winners' costs. */
  function WinnerCosts(machines: seq<Machine>): int
  {
    if machines == [] then 0
    else
      var winner := Cheapest(machines[|machines| - 1].possibleRuns);
      WinnerCosts(machines[..|machines| - 1]) + (if winner.Some? then winner.value.totalCost else 0)
  }

  /** The total over a list of machines whose runs all cost at least
      nothing is at least nothing, and a machine without runs adds neither
      a winner nor a cost. */
  lemma {:induction false} WinnerCostsNonNegative(machines: seq<Machine>)
    requires forall k, r :: 0 <= k < |machines| && r in machines[k].possibleRuns ==> r.totalCost >= 0
    ensures WinnerCosts(machines) >= 0
  {
    if machines != [] {
      var prefix := machines[..|machines| - 1];
      assert forall k :: 0 <= k < |prefix| ==> prefix[k] == machines[k];
      WinnerCostsNonNegative(prefix);
      var runs := machines[|machines| - 1].possibleRuns;
      CheapestIsMinimum(runs);
    }
  }

  /** The winner loop of Day13 over all machines. */
  method Tally(machines: seq<Machine>) returns (machineWithWinner: nat, allCosts: int)
    ensures machineWithWinner == WinnerCount(machines)
    ensures allCosts == WinnerCosts(machines)
  {
    machineWithWinner, allCosts := 0, 0;
    for k := 0 to |machines|
      invariant machineWithWinner == WinnerCount(machines[..k])
      invariant allCosts == WinnerCosts(machines[..k])
    {
      assert machines[..k + 1][..k] == machines[..k];
      var winner := Winner(machines[k].possibleRuns);
      if winner != None {
        machineWithWinner := machineWithWinner + 1;
        allCosts := allCosts + winner.value.totalCost;
      }
    }
    assert machines[..|machines|] == machines;
  }

  // --------------------------------------------------------------- parsing

  /** The slices newMachine takes of a recognised line exist (the Go code
      panics otherwise). */
  predicate Readable(line: string)
  {
    var parts := Split(line, " ");
    ((HasPrefix(line, "Button A:") || HasPrefix(line, "Button B:")) ==>
       |parts| > 3 && |parts[2]| >= 3 && |parts[3]| >= 2) &&
    (HasPrefix(line, "Prize:") ==> |parts| > 2 && |parts[1]| >= 3 && |parts[2]| >= 2)
  }

  /** What one line sets: "Button A: X+n1, Y+n2" the A movement, "Button B:
      ..." the B movement, "Prize: X=n5, Y=n6" the prize; the number is the
      text between the two-character label and the trailing comma, read
      with parseInt (0 when it does not parse). Other lines set nothing. */
  function ReadLine(m: Machine, line: string): Machine
    requires Readable(line)
  {
    var parts := Split(line, " ");
    if HasPrefix(line, "Button A:") then
      m.(buttonAX := AtoiOrZero(parts[2][2..|parts[2]| - 1]), buttonAY := AtoiOrZero(parts[3][2..]))
    else if HasPrefix(line, "Button B:") then
      m.(buttonBX := AtoiOrZero(parts[2][2..|parts[2]| - 1]), buttonBY := AtoiOrZero(parts[3][2..]))
    else if HasPrefix(line, "Prize:") then
      m.(prizeX := AtoiOrZero(parts[1][2..|parts[1]| - 1]), prizeY := AtoiOrZero(parts[2][2..]))
    else m
  }

  /** The machine after reading the lines in order, from all zeros and no
      runs: a later line of the same kind overrides an earlier one. */
  function ReadLines(lines: seq<string>): Machine
    requires forall k :: 0 <= k < |lines| ==> Readable(lines[k])
  {
    if lines == [] then Machine(0, 0, 0, 0, 0, 0, [])
    else ReadLine(ReadLines(lines[..|lines| - 1]), lines[|lines| - 1])
  }

  /** newMachine. */
  method NewMachine(configStanza: string) returns (m: Machine)
    requires forall line :: line in Split(configStanza, "\n") ==> Readable(line)
    ensures m == ReadLines(Split(configStanza, "\n"))
  {
    var lines := Split(configStanza, "\n");
    m := Machine(0, 0, 0, 0, 0, 0, []);
    for k := 0 to |lines|
      invariant forall j :: 0 <= j < |lines| ==> Readable(lines[j])
      invariant m == ReadLines(lines[..k])
    {
      assert lines[k] in lines;
      var line := lines[k];
      assert lines[..k + 1][..k] == lines[..k];
      assert ReadLines(lines[..k + 1]) == ReadLine(m, line);
      if HasPrefix(line, "Button A:") {
        var parts := Split(line, " ");
        m := m.(buttonAX := AtoiOrZero(parts[2][2..|parts[2]| - 1]));
        m := m.(buttonAY := AtoiOrZero(parts[3][2..]));
      } else if HasPrefix(line, "Button B:") {
        var parts := Split(line, " ");
        m := m.(buttonBX := AtoiOrZero(parts[2][2..|parts[2]| - 1]));
        m := m.(buttonBY := AtoiOrZero(parts[3][2..]));
      } else if HasPrefix(line, "Prize:") {
        var parts := Split(line, " ");
        m := m.(prizeX := AtoiOrZero(parts[1][2..|parts[1]| - 1]));
        m := m.(prizeY := AtoiOrZero(parts[2][2..]));
      }
    }
    assert lines[..|lines|] == lines;
  }

  // ------------------------------------------------------ the stanza format

  /** The words of "Button A: X+n1, Y+n2". */
  function ButtonWords(button: char, dx: nat, dy: nat): seq<string>
  {
    ["Button", [button, ':'], "X+" + FormatNat(dx) + ",", "Y+" + FormatNat(dy)]
  }

  /** The words of "Prize: X=n5, Y=n6". */
  function PrizeWords(x: nat, y: nat): seq<string>
  {
    ["Prize:", "X=" + FormatNat(x) + ",", "Y=" + FormatNat(y)]
  }

  function ButtonLine(button: char, dx: nat, dy: nat): string
  {
    Join(ButtonWords(button, dx, dy), " ")
  }

  function PrizeLine(x: nat, y: nat): string
  {
    Join(PrizeWords(x, y), " ")
  }

  /** A stanza as the puzzle writes it: the three lines separated by
      newlines. */
  function Stanza(aX: nat, aY: nat, bX: nat, bY: nat, pX: nat, pY: nat): string
  {
    Join([ButtonLine('A', aX, aY), ButtonLine('B', bX, bY), PrizeLine(pX, pY)], "\n")
  }

  lemma NoSpaceInNumber(n: nat)
    ensures ' ' !in FormatNat(n) && '\n' !in FormatNat(n)
  {
  }

  /** The words of a line hold no space and no newline, so the line
      splits back into them and holds no newline. */
  lemma {:induction false} LineWords(words: seq<string>)
    requires |words| >= 1 && PiecesFree(words, ' ') && PiecesFree(words, '\n')
    ensures Split(Join(words, " "), " ") == words
    ensures '\n' !in Join(words, " ")
  {
    SplitJoinInverse(words, " ");
    JoinFree(words, " ", '\n');
  }

  lemma ButtonWordsFree(button: char, dx: nat, dy: nat)
    requires button == 'A' || button == 'B'
    ensures PiecesFree(ButtonWords(button, dx, dy), ' ') && PiecesFree(ButtonWords(button, dx, dy), '\n')
  {
    NoSpaceInNumber(dx);
    NoSpaceInNumber(dy);
  }

  lemma PrizeWordsFree(x: nat, y: nat)
    ensures PiecesFree(PrizeWords(x, y), ' ') && PiecesFree(PrizeWords(x, y), '\n')
  {
    NoSpaceInNumber(x);
    NoSpaceInNumber(y);
  }

  /** A button line starts with "Button A:" or "Button B:" after its
      button. */
  lemma ButtonLineHead(button: char, dx: nat, dy: nat)
    ensures HasPrefix(ButtonLine(button, dx, dy), "Button A:") <==> button == 'A'
    ensures HasPrefix(ButtonLine(button, dx, dy), "Button B:") <==> button == 'B'
  {
    var words := ButtonWords(button, dx, dy);
    var line := Join(words, " ");
    JoinCons(words[0], words[1..], " ");
    assert [words[0]] + words[1..] == words;
    JoinCons(words[1], words[2..], " ");
    assert [words[1]] + words[2..] == words[1..];
    assert line == ("Button" + " " + [button, ':']) + (" " + Join(words[2..], " "));
    assert line[..9] == "Button" + " " + [button, ':'];
    assert line[..9][7] == button && "Button A:"[7] == 'A' && "Button B:"[7] == 'B';
  }

  /** A prize line starts with "Prize:". */
  lemma PrizeLineHead(x: nat, y: nat)
    ensures HasPrefix(PrizeLine(x, y), "Prize:")
    ensures !HasPrefix(PrizeLine(x, y), "Button A:") && !HasPrefix(PrizeLine(x, y), "Button B:")
  {
    var words := PrizeWords(x, y);
    var line := Join(words, " ");
    JoinCons(words[0], words[1..], " ");
    assert [words[0]] + words[1..] == words;
    assert line == "Prize:" + (" " + Join(words[1..], " "));
    assert line[0] == 'P';
  }

  /** The number between a two-character label and a trailing comma, and
      the one after a two-character label, read back with parseInt. */
  lemma ReadNumbers(first: string, second: string, x: nat, y: nat)
    requires |first| == 2 && |second| == 2
    ensures var w := first + FormatNat(x) + ","; |w| >= 3 && AtoiOrZero(w[2..|w| - 1]) == x
    ensures var w := second + FormatNat(y); |w| >= 2 && AtoiOrZero(w[2..]) == y
  {
    ParseFormatRoundTrip(x);
    ParseFormatRoundTrip(y);
    var w := first + FormatNat(x) + ",";
    assert w[2..|w| - 1] == FormatNat(x);
    var v := second + FormatNat(y);
    assert v[2..] == FormatNat(y);
  }

  /** A button line can be read and newMachine takes its two numbers. */
  lemma ReadButtonLine(m: Machine, button: char, dx: nat, dy: nat)
    requires button == 'A' || button == 'B'
    ensures '\n' !in ButtonLine(button, dx, dy)
    ensures Readable(ButtonLine(button, dx, dy))
    ensures button == 'A' ==> ReadLine(m, ButtonLine(button, dx, dy)) == m.(buttonAX := dx, buttonAY := dy)
    ensures button == 'B' ==> ReadLine(m, ButtonLine(button, dx, dy)) == m.(buttonBX := dx, buttonBY := dy)
  {
    ButtonWordsFree(button, dx, dy);
    LineWords(ButtonWords(button, dx, dy));
    ButtonLineHead(button, dx, dy);
    ReadNumbers("X+", "Y+", dx, dy);
  }

  /** A prize line can be read and newMachine takes its two numbers. */
  lemma ReadPrizeLine(m: Machine, x: nat, y: nat)
    ensures '\n' !in PrizeLine(x, y)
    ensures Readable(PrizeLine(x, y))
    ensures ReadLine(m, PrizeLine(x, y)) == m.(prizeX := x, prizeY := y)
  {
    PrizeWordsFree(x, y);
    LineWords(PrizeWords(x, y));
    PrizeLineHead(x, y);
    ReadNumbers("X=", "Y=", x, y);
  }

  /** A stanza splits into its three lines. */
  lemma StanzaLines(aX: nat, aY: nat, bX: nat, bY: nat, pX: nat, pY: nat)
    ensures Split(Stanza(aX, aY, bX, bY, pX, pY), "\n") == [ButtonLine('A', aX, aY), ButtonLine('B', bX, bY), PrizeLine(pX, pY)]
  {
    ButtonWordsFree('A', aX, aY);
    LineWords(ButtonWords('A', aX, aY));
    ButtonWordsFree('B', bX, bY);
    LineWords(ButtonWords('B', bX, bY));
    PrizeWordsFree(pX, pY);
    LineWords(PrizeWords(pX, pY));
    var lines := [ButtonLine('A', aX, aY), ButtonLine('B', bX, bY), PrizeLine(pX, pY)];
    ThreePiecesFree(lines[0], lines[1], lines[2], '\n');
    SplitJoinInverse(lines, "\n");
  }

  lemma ThreePiecesFree(a: string, b: string, p: string, c: char)
    requires c !in a && c !in b && c !in p
    ensures PiecesFree([a, b, p], c)
  {
  }

  /** Three readable lines are read in order. */
  lemma ReadThreeLines(a: string, b: string, p: string)
    requires Readable(a) && Readable(b) && Readable(p)
    ensures ReadLines([a, b, p]) == ReadLine(ReadLine(ReadLine(Machine(0, 0, 0, 0, 0, 0, []), a), b), p)
  {
    var zero := Machine(0, 0, 0, 0, 0, 0, []);
    assert [a, b, p][..2] == [a, b] && [a, b][..1] == [a] && [a][..0] == [];
    assert ReadLines([a]) == ReadLine(zero, a);
    assert ReadLines([a, b]) == ReadLine(ReadLine(zero, a), b);
  }

  /** newMachine reads back the six numbers of a stanza written in the
      puzzle's format, with no runs yet. */
  lemma NewMachineReadsStanza(aX: nat, aY: nat, bX: nat, bY: nat, pX: nat, pY: nat)
    ensures forall line :: line in Split(Stanza(aX, aY, bX, bY, pX, pY), "\n") ==> Readable(line)
    ensures ReadLines(Split(Stanza(aX, aY, bX, bY, pX, pY), "\n")) == Machine(aX, aY, bX, bY, pX, pY, [])
  {
    var zero := Machine(0, 0, 0, 0, 0, 0, []);
    var a, b, p := ButtonLine('A', aX, aY), ButtonLine('B', bX, bY), PrizeLine(pX, pY);
    StanzaLines(aX, aY, bX, bY, pX, pY);
    ReadButtonLine(zero, 'A', aX, aY);
    ReadButtonLine(ReadLine(zero, a), 'B', bX, bY);
    ReadPrizeLine(ReadLine(ReadLine(zero, a), b), pX, pY);
    ReadThreeLines(a, b, p);
  }

  // ------------------------------------------------------------------ Day13

  /** Every line of every stanza can be read. */
  predicate Readables(stanzas: seq<string>)
  {
    forall k :: 0 <= k < |stanzas| ==> forall line :: line in Split(stanzas[k], "\n") ==> Readable(line)
  }

  /** The machines newMachine builds, one per stanza. */
  function Parsed(stanzas: seq<string>): (machines: seq<Machine>)
    requires Readables(stanzas)
  {
    seq(|stanzas|, k requires 0 <= k < |stanzas| => ReadLines(Split(stanzas[k], "\n")))
  }

  /** The search can run on every machine without dividing by zero. */
  predicate Movable(machines: seq<Machine>)
  {
    forall k :: 0 <= k < |machines| ==> Searchable(machines[k])
  }

  /** The machines after the search, each with its runs appended. */
  function SearchedAll(machines: seq<Machine>): seq<Machine>
    requires Movable(machines)
  {
    seq(|machines|, k requires 0 <= k < |machines| =>
      machines[k].(possibleRuns := machines[k].possibleRuns + Runs(machines[k])))
  }

  /** The loop of Day13 that builds one machine per stanza. */
  method NewMachines(inputStanzas: seq<string>) returns (machines: seq<Machine>)
    requires Readables(inputStanzas)
    ensures machines == Parsed(inputStanzas)
  {
    machines := [];
    for k := 0 to |inputStanzas|
      invariant machines == Parsed(inputStanzas)[..k]
    {
      var machine := NewMachine(inputStanzas[k]);
      machines := machines + [machine];
    }
  }

  /** The search loop of Day13 over all machines: each one gets its runs. */
  method SearchAll(machines: seq<Machine>) returns (searched: seq<Machine>)
    requires Movable(machines)
    ensures searched == SearchedAll(machines)
  {
    searched := machines;
    for k := 0 to |machines|
      invariant |searched| == |machines|
      invariant forall j :: 0 <= j < k ==> searched[j] == SearchedAll(machines)[j]
      invariant forall j :: k <= j < |machines| ==> searched[j] == machines[j]
    {
      var machine := SearchRuns(searched[k]);
      searched := searched[k := machine];
    }
  }

  /** Day13: split the trimmed input into stanzas, build the machines,
      search each one, and count the machines with a winner and the sum of
      the winners' costs. */
  method Day13(inputMemory: string) returns (machineWithWinner: nat, allCosts: int)
    requires Readables(Split(TrimSpace(inputMemory), "\n\n"))
    requires Movable(Parsed(Split(TrimSpace(inputMemory), "\n\n")))
    ensures machineWithWinner == WinnerCount(SearchedAll(Parsed(Split(TrimSpace(inputMemory), "\n\n"))))
    ensures allCosts == WinnerCosts(SearchedAll(Parsed(Split(TrimSpace(inputMemory), "\n\n"))))
  {
    var inputStanzas := Split(TrimSpace(inputMemory), "\n\n");
    var machines := NewMachines(inputStanzas);
    machines := SearchAll(machines);
    machineWithWinner, allCosts := Tally(machines);
  }
}
