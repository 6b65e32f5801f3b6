/** Day 14: robots in an 11 by 7 room. Each line "p=x,y v=vx,vy" gives a
    robot's position and velocity. Every robot takes 100 steps, wrapping
    around the room's edges; the room counts the robots per cell, the cells
    off the middle column and middle row fall into four quadrants, and the
    answer is the product of the four quadrant counts. */
module Day14 {
  import opened GoText

  /** day14Robot: position and velocity. */
  datatype Robot = Robot(px: int, py: int, vx: int, vy: int)

  const RoomWidth := 11
  const RoomHeight := 7
  const Steps := 100

  // --------------------------------------------------------------- parsing

  /** The pieces the parser takes of a line exist (the Go code panics
      otherwise): two words, each with a comma, and a two-character tag. */
  predicate Readable(line: string)
  {
    var parts := Split(line, " ");
    |parts| >= 2 &&
    var positionParts := Split(parts[0], ",");
    var velocityParts := Split(parts[1], ",");
    |positionParts| >= 2 && |positionParts[0]| >= 2 && |velocityParts| >= 2 && |velocityParts[0]| >= 2
  }

  /** newRobot on the four numbers of a line: the first word split at its
      comma gives the position, the second the velocity, the tags "p=" and
      "v=" are skipped, and day14ParseInt reads each number (0 when it does
      not parse). */
  function ParseRobot(line: string): Robot
    requires Readable(line)
  {
    var parts := Split(line, " ");
    var positionParts := Split(parts[0], ",");
    var velocityParts := Split(parts[1], ",");
    Robot(AtoiOrZero(positionParts[0][2..]), AtoiOrZero(positionParts[1]),
          AtoiOrZero(velocityParts[0][2..]), AtoiOrZero(velocityParts[1]))
  }

  predicate AllReadable(lines: seq<string>)
  {
    forall k :: 0 <= k < |lines| ==> Readable(lines[k])
  }

  function ParsedRobots(lines: seq<string>): seq<Robot>
    requires AllReadable(lines)
  {
    seq(|lines|, k requires 0 <= k < |lines| => ParseRobot(lines[k]))
  }

  /** The parsing loop of Day14, one robot per line of the trimmed input. */
  method ParseRobots(inputMemory: string) returns (robots: seq<Robot>)
    requires AllReadable(Split(TrimSpace(inputMemory), "\n"))
    ensures robots == ParsedRobots(Split(TrimSpace(inputMemory), "\n"))
  {
    var lines := Split(TrimSpace(inputMemory), "\n");
    robots := [];
    for k := 0 to |lines|
      invariant robots == ParsedRobots(lines)[..k]
    {
      assert Readable(lines[k]);
      var parts := Split(lines[k], " ");
      var positionParts := Split(parts[0], ",");
      var velocityParts := Split(parts[1], ",");
      var px := AtoiOrZero(positionParts[0][2..]);
      var py := AtoiOrZero(positionParts[1]);
      var vx := AtoiOrZero(velocityParts[0][2..]);
      var vy := AtoiOrZero(velocityParts[1]);
      assert Robot(px, py, vx, vy) == ParsedRobots(lines)[k];
      robots := robots + [Robot(px, py, vx, vy)];
    }
  }

  /** "tagX,Y": a tag and two numbers separated by a comma. */
  function PairWord(tag: string, x: int, y: int): string
  {
    Join([tag + FormatInt(x), FormatInt(y)], ",")
  }

  /** A robot as the puzzle writes it: "p=x,y v=vx,vy". */
  function RobotLine(r: Robot): string
  {
    Join([PairWord("p=", r.px, r.py), PairWord("v=", r.vx, r.vy)], " ")
  }

  lemma NumberFree(n: int, c: char)
    requires c == ' ' || c == ',' || c == '\n'
    ensures c !in FormatInt(n)
  {
    FormatIntChars(n);
  }

  /** A pair word splits at its comma into the tagged number and the other
      one, and holds no space or newline. */
  lemma PairWordSplits(tag: string, x: int, y: int)
    requires tag == "p=" || tag == "v="
    ensures Split(PairWord(tag, x, y), ",") == [tag + FormatInt(x), FormatInt(y)]
    ensures ' ' !in PairWord(tag, x, y) && '\n' !in PairWord(tag, x, y)
  {
    var pieces := [tag + FormatInt(x), FormatInt(y)];
    NumberFree(x, ',');
    NumberFree(y, ',');
    NumberFree(x, ' ');
    NumberFree(y, ' ');
    NumberFree(x, '\n');
    NumberFree(y, '\n');
    assert PiecesFree(pieces, ',');
    SplitJoinInverse(pieces, ",");
    assert PiecesFree(pieces, ' ') && PiecesFree(pieces, '\n');
    JoinFree(pieces, ",", ' ');
    JoinFree(pieces, ",", '\n');
  }

  /** A robot written in the puzzle's format is read back as itself, and
      its line holds no newline. */
  lemma ParseRobotLine(r: Robot)
    ensures Readable(RobotLine(r)) && ParseRobot(RobotLine(r)) == r
    ensures '\n' !in RobotLine(r)
  {
    var words := [PairWord("p=", r.px, r.py), PairWord("v=", r.vx, r.vy)];
    PairWordSplits("p=", r.px, r.py);
    PairWordSplits("v=", r.vx, r.vy);
    assert PiecesFree(words, ' ') && PiecesFree(words, '\n');
    SplitJoinInverse(words, " ");
    JoinFree(words, " ", '\n');
    ParseFormatRoundTrip(r.px);
    ParseFormatRoundTrip(r.py);
    ParseFormatRoundTrip(r.vx);
    ParseFormatRoundTrip(r.vy);
    assert ("p=" + FormatInt(r.px))[2..] == FormatInt(r.px);
    assert ("v=" + FormatInt(r.vx))[2..] == FormatInt(r.vx);
  }

  // ------------------------------------------------------------ simulation

  /** One axis of one step after the velocity is added: a negative
      coordinate gets the room size added once, then one at or past the
      size gets it subtracted once. A coordinate at most one room size off
      the room lands in it, on its Euclidean remainder. */
  function WrapAxis(p: int, size: int): (q: int)
    ensures size > 0 && -size <= p < 2 * size ==> 0 <= q < size && q == p % size
  {
    var a := if p < 0 then size + p else p;
    if a >= size then a - size else a
  }

  /** One step of a robot in a room of width w and height h. */
  function Step(r: Robot, w: int, h: int): (s: Robot)
    ensures s.vx == r.vx && s.vy == r.vy
  {
    r.(px := WrapAxis(r.px + r.vx, w), py := WrapAxis(r.py + r.vy, h))
  }

  /** The robot after n steps. */
  function Simulate(r: Robot, n: nat, w: int, h: int): Robot
    decreases n
  {
    if n == 0 then r else Step(Simulate(r, n - 1, w, h), w, h)
  }

  predicate InRoom(r: Robot, w: int, h: int)
  {
    0 <= r.px < w && 0 <= r.py < h
  }

  /** Each velocity component is at most one room size. */
  predicate SlowEnough(r: Robot, w: int, h: int)
  {
    -w <= r.vx <= w && -h <= r.vy <= h
  }

  /** Adding to a number does the same to its remainder. */
  lemma ModAdd(a: int, v: int, w: int)
    requires w > 0
    ensures (a % w + v) % w == (a + v) % w
  {
    var q := a / w;
    ModShift(a % w + v, q, w);
    assert a % w + v + q * w == a + v;
  }

  lemma ModShift(x: int, q: int, w: int)
    requires w > 0
    ensures (x + q * w) % w == x % w
  {
    var r := x % w;
    MulDiff(x / w + q, x / w, w);
    ModUnique(x + q * w, w, x / w + q, r);
  }

  /** The remainder is the one r in [0, w) with y == k * w + r. */
  lemma ModUnique(y: int, w: int, k: int, r: int)
    requires w > 0 && 0 <= r < w && y == k * w + r
    ensures y % w == r
  {
    var k', r' := y / w, y % w;
    MulDiff(k, k', w);
    if k > k' {
      MulAtLeast(k - k', w);
    } else if k < k' {
      MulAtLeast(k' - k, w);
      MulDiff(k', k, w);
    }
  }

  /** A robot that starts in the room and is slow enough stays in the room
      and after n steps sits at its start plus n times its velocity, taken
      modulo the room's size on each axis. */
  lemma {:induction false} SimulateWraps(r: Robot, n: nat, w: int, h: int)
    requires w > 0 && h > 0 && InRoom(r, w, h) && SlowEnough(r, w, h)
    ensures InRoom(Simulate(r, n, w, h), w, h)
    ensures Simulate(r, n, w, h) == Robot((r.px + n * r.vx) % w, (r.py + n * r.vy) % h, r.vx, r.vy)
    decreases n
  {
    if n == 0 {
      ModUnique(r.px, w, 0, r.px);
      ModUnique(r.py, h, 0, r.py);
      assert r.px + n * r.vx == r.px && r.py + n * r.vy == r.py;
    } else {
      SimulateWraps(r, n - 1, w, h);
      var before := Simulate(r, n - 1, w, h);
      AxisStep(r.px, r.vx, w, n, before.px);
      AxisStep(r.py, r.vy, h, n, before.py);
    }
  }

  /** One more step on one axis moves the remainder on by the velocity. */
  lemma AxisStep(p: int, v: int, size: int, n: nat, before: int)
    requires size > 0 && 0 <= p < size && -size <= v <= size && n >= 1
    requires before == (p + (n - 1) * v) % size
    ensures 0 <= WrapAxis(before + v, size) < size && WrapAxis(before + v, size) == (p + n * v) % size
  {
    ModAdd(p + (n - 1) * v, v, size);
    MulDiff(n, n - 1, v);
  }

  /** The step loop of Day14 for one robot. */
  method MoveRobot(robot: Robot, steps: nat, roomWidth: int, roomHeight: int) returns (moved: Robot)
    ensures moved == Simulate(robot, steps, roomWidth, roomHeight)
  {
    moved := robot;
    for i := 1 to steps + 1
      invariant moved == Simulate(robot, i - 1, roomWidth, roomHeight)
    {
      moved := moved.(px := moved.px + moved.vx, py := moved.py + moved.vy);
      if moved.px < 0 {
        moved := moved.(px := roomWidth + moved.px);
      }
      if moved.px >= roomWidth {
        moved := moved.(px := moved.px - roomWidth);
      }
      if moved.py < 0 {
        moved := moved.(py := roomHeight + moved.py);
      }
      if moved.py >= roomHeight {
        moved := moved.(py := moved.py - roomHeight);
      }
    }
  }

  function Moved(robots: seq<Robot>, steps: nat, w: int, h: int): seq<Robot>
  {
    seq(|robots|, k requires 0 <= k < |robots| => Simulate(robots[k], steps, w, h))
  }

  /** The simulation loop of Day14 over all robots. */
  method MoveRobots(robots: seq<Robot>, steps: nat, roomWidth: int, roomHeight: int) returns (moved: seq<Robot>)
    ensures moved == Moved(robots, steps, roomWidth, roomHeight)
  {
    moved := [];
    for k := 0 to |robots|
      invariant moved == Moved(robots, steps, roomWidth, roomHeight)[..k]
    {
      var robot := MoveRobot(robots[k], steps, roomWidth, roomHeight);
      moved := moved + [robot];
    }
  }

  // ----------------------------------------------------------------- rooms

  /** The number of robots standing on (x, y). */
  function CountAt(robots: seq<Robot>, x: int, y: int): (n: nat)
    ensures n <= |robots|
  {
    if robots == [] then 0
    else
      var r := robots[|robots| - 1];
      CountAt(robots[..|robots| - 1], x, y) + (if r.px == x && r.py == y then 1 else 0)
  }

  predicate AllInRoom(robots: seq<Robot>, w: int, h: int)
  {
    forall k :: 0 <= k < |robots| ==> InRoom(robots[k], w, h)
  }

  /** The marking loop of Day14: each robot adds one to its cell. */
  method MarkRobots(rooms: array2<int>, robots: seq<Robot>)
    requires AllInRoom(robots, rooms.Length0, rooms.Length1)
    modifies rooms
    ensures forall i, j :: 0 <= i < rooms.Length0 && 0 <= j < rooms.Length1 ==>
              rooms[i, j] == old(rooms[i, j]) + CountAt(robots, i, j)
  {
    for k := 0 to |robots|
      invariant forall i, j :: 0 <= i < rooms.Length0 && 0 <= j < rooms.Length1 ==>
                  rooms[i, j] == old(rooms[i, j]) + CountAt(robots[..k], i, j)
    {
      var robot := robots[k];
      assert robots[..k + 1][..k] == robots[..k];
      rooms[robot.px, robot.py] := rooms[robot.px, robot.py] + 1;
    }
    assert robots[..|robots|] == robots;
  }

  /** The reset loop of Day14: every cell back to zero. */
  method ClearRoom(rooms: array2<int>)
    modifies rooms
    ensures forall i, j :: 0 <= i < rooms.Length0 && 0 <= j < rooms.Length1 ==> rooms[i, j] == 0
  {
    for i := 0 to rooms.Length0
      invariant forall i', j :: 0 <= i' < i && 0 <= j < rooms.Length1 ==> rooms[i', j] == 0
    {
      for j := 0 to rooms.Length1
        invariant forall i', j' :: 0 <= i' < i && 0 <= j' < rooms.Length1 ==> rooms[i', j'] == 0
        invariant forall j' :: 0 <= j' < j ==> rooms[i, j'] == 0
      {
        rooms[i, j] := 0;
      }
    }
  }

  // ------------------------------------------------------------- quadrants

  /** The quadrant of a cell in the order the Go code fills its counts:
      top-left, top-right, bottom-left, bottom-right. The middle column
      and the middle row belong to none; every other cell of the room to
      exactly one. */
  function QuadrantOf(x: int, y: int, w: int, h: int): (q: Option<nat>)
    ensures q.Some? ==> q.value < 4 && x != w / 2 && y != h / 2
    ensures 0 <= x < w && 0 <= y < h && x != w / 2 && y != h / 2 ==> q.Some?
  {
    if x < w / 2 && y < h / 2 then Some(0)
    else if x > w / 2 && y < h / 2 then Some(1)
    else if x < w / 2 && y > h / 2 then Some(2)
    else if x > w / 2 && y > h / 2 then Some(3)
    else None
  }

  /** Which cells a sum runs over: the whole room or one quadrant. */
  datatype Selection = Everywhere | Quadrant(k: nat)

  predicate Selected(sel: Selection, x: int, y: int, w: int, h: int)
  {
    match sel
    case Everywhere => true
    case Quadrant(k) => QuadrantOf(x, y, w, h) == Some(k)
  }

  /** The robots on the selected cells of column x, rows below n. */
  function ColumnSum(robots: seq<Robot>, sel: Selection, x: int, w: int, h: int, n: int): int
    decreases n
  {
    if n <= 0 then 0
    else ColumnSum(robots, sel, x, w, h, n - 1) + (if Selected(sel, x, n - 1, w, h) then CountAt(robots, x, n - 1) else 0)
  }

  /** The robots on the selected cells of columns below n, in the order
      the Go code visits the room (column by column). */
  function GridSum(robots: seq<Robot>, sel: Selection, w: int, h: int, n: int): int
    decreases n
  {
    if n <= 0 then 0
    else GridSum(robots, sel, w, h, n - 1) + ColumnSum(robots, sel, n - 1, w, h, h)
  }

  /** The robots in the room on a selected cell, counted directly. */
  function RobotsSelected(robots: seq<Robot>, sel: Selection, w: int, h: int): (n: nat)
    ensures n <= |robots|
  {
    if robots == [] then 0
    else
      var r := robots[|robots| - 1];
      RobotsSelected(robots[..|robots| - 1], sel, w, h) + (if InRoom(r, w, h) && Selected(sel, r.px, r.py, w, h) then 1 else 0)
  }

  lemma {:induction false} ColumnSumEmpty(sel: Selection, x: int, w: int, h: int, n: int)
    ensures ColumnSum([], sel, x, w, h, n) == 0
    decreases n
  {
    if n > 0 {
      ColumnSumEmpty(sel, x, w, h, n - 1);
    }
  }

  lemma {:induction false} GridSumEmpty(sel: Selection, w: int, h: int, n: int)
    ensures GridSum([], sel, w, h, n) == 0
    decreases n
  {
    if n > 0 {
      GridSumEmpty(sel, w, h, n - 1);
      ColumnSumEmpty(sel, n - 1, w, h, h);
    }
  }

  /** One more robot adds one to the column's sum exactly when it stands
      on a selected cell of the column below row n. */
  lemma {:induction false} ColumnSumAdd(robots: seq<Robot>, r: Robot, sel: Selection, x: int, w: int, h: int, n: int)
    ensures ColumnSum(robots + [r], sel, x, w, h, n) ==
            ColumnSum(robots, sel, x, w, h, n) + (if r.px == x && 0 <= r.py < n && Selected(sel, x, r.py, w, h) then 1 else 0)
    decreases n
  {
    if n > 0 {
      ColumnSumAdd(robots, r, sel, x, w, h, n - 1);
      assert (robots + [r])[..|robots + [r]| - 1] == robots;
    }
  }

  lemma {:induction false} GridSumAdd(robots: seq<Robot>, r: Robot, sel: Selection, w: int, h: int, n: int)
    ensures GridSum(robots + [r], sel, w, h, n) ==
            GridSum(robots, sel, w, h, n) + (if 0 <= r.px < n && 0 <= r.py < h && Selected(sel, r.px, r.py, w, h) then 1 else 0)
    decreases n
  {
    if n > 0 {
      GridSumAdd(robots, r, sel, w, h, n - 1);
      ColumnSumAdd(robots, r, sel, n - 1, w, h, h);
    }
  }

  /** Summing the room's counts over the selected cells counts the robots
      in the room on a selected cell. */
  lemma {:induction false} GridSumCountsRobots(robots: seq<Robot>, sel: Selection, w: int, h: int)
    ensures GridSum(robots, sel, w, h, w) == RobotsSelected(robots, sel, w, h)
  {
    if robots == [] {
      GridSumEmpty(sel, w, h, w);
    } else {
      var prefix, r := robots[..|robots| - 1], robots[|robots| - 1];
      GridSumCountsRobots(prefix, sel, w, h);
      GridSumAdd(prefix, r, sel, w, h, w);
      assert prefix + [r] == robots;
    }
  }

  /** With every robot in the room, the room's counts sum to the number of
      robots. */
  lemma {:induction false} RoomHoldsEveryRobot(robots: seq<Robot>, w: int, h: int)
    requires AllInRoom(robots, w, h)
    ensures GridSum(robots, Everywhere, w, h, w) == |robots|
  {
    GridSumCountsRobots(robots, Everywhere, w, h);
    AllSelected(robots, w, h);
  }

  lemma {:induction false} AllSelected(robots: seq<Robot>, w: int, h: int)
    requires AllInRoom(robots, w, h)
    ensures RobotsSelected(robots, Everywhere, w, h) == |robots|
  {
    if robots != [] {
      var prefix := robots[..|robots| - 1];
      assert AllInRoom(prefix, w, h) by {
        forall k | 0 <= k < |prefix|
          ensures InRoom(prefix[k], w, h)
        {
          assert prefix[k] == robots[k];
        }
      }
      AllSelected(prefix, w, h);
      assert InRoom(robots[|robots| - 1], w, h);
    }
  }

  /** The robots in the room on the middle column or the middle row. */
  function OnMiddle(robots: seq<Robot>, w: int, h: int): (n: nat)
    ensures n <= |robots|
  {
    if robots == [] then 0
    else
      var r := robots[|robots| - 1];
      OnMiddle(robots[..|robots| - 1], w, h) + (if InRoom(r, w, h) && (r.px == w / 2 || r.py == h / 2) then 1 else 0)
  }

  /** Every robot in the room is in exactly one quadrant or on a middle
      line, so the four quadrant counts and the middle count add up to the
      robots in the room. */
  lemma {:induction false} QuadrantsPartition(robots: seq<Robot>, w: int, h: int)
    ensures RobotsSelected(robots, Quadrant(0), w, h) + RobotsSelected(robots, Quadrant(1), w, h) +
            RobotsSelected(robots, Quadrant(2), w, h) + RobotsSelected(robots, Quadrant(3), w, h) +
            OnMiddle(robots, w, h) == RobotsSelected(robots, Everywhere, w, h)
  {
    if robots != [] {
      QuadrantsPartition(robots[..|robots| - 1], w, h);
      var r := robots[|robots| - 1];
      if InRoom(r, w, h) && r.px != w / 2 && r.py != h / 2 {
        assert QuadrantOf(r.px, r.py, w, h).Some?;
      }
    }
  }

  /** The quadrant loop of Day14: column by column, each cell holding
      robots adds its count to the quadrant the cell lies in. */
  method CountQuadrants(rooms: array2<int>, ghost robots: seq<Robot>) returns (quadrantRobotCount: array<int>)
    requires forall i, j :: 0 <= i < rooms.Length0 && 0 <= j < rooms.Length1 ==> rooms[i, j] == CountAt(robots, i, j)
    ensures quadrantRobotCount.Length == 4
    ensures forall k :: 0 <= k < 4 ==>
              quadrantRobotCount[k] == RobotsSelected(robots, Quadrant(k), rooms.Length0, rooms.Length1)
  {
    var roomWidth, roomHeight := rooms.Length0, rooms.Length1;
    quadrantRobotCount := new int[4](k => 0);
    for i := 0 to roomWidth
      invariant forall k :: 0 <= k < 4 ==>
                  quadrantRobotCount[k] == GridSum(robots, Quadrant(k), roomWidth, roomHeight, i)
    {
      for j := 0 to roomHeight
        invariant forall k :: 0 <= k < 4 ==>
                    quadrantRobotCount[k] == GridSum(robots, Quadrant(k), roomWidth, roomHeight, i) +
                                             ColumnSum(robots, Quadrant(k), i, roomWidth, roomHeight, j)
      {
        if rooms[i, j] > 0 {
          if i < roomWidth / 2 && j < roomHeight / 2 {
            quadrantRobotCount[0] := quadrantRobotCount[0] + rooms[i, j];
          } else if i > roomWidth / 2 && j < roomHeight / 2 {
            quadrantRobotCount[1] := quadrantRobotCount[1] + rooms[i, j];
          } else if i < roomWidth / 2 && j > roomHeight / 2 {
            quadrantRobotCount[2] := quadrantRobotCount[2] + rooms[i, j];
          } else if i > roomWidth / 2 && j > roomHeight / 2 {
            quadrantRobotCount[3] := quadrantRobotCount[3] + rooms[i, j];
          }
        }
      }
    }
    forall k | 0 <= k < 4
      ensures GridSum(robots, Quadrant(k), roomWidth, roomHeight, roomWidth) == RobotsSelected(robots, Quadrant(k), roomWidth, roomHeight)
    {
      GridSumCountsRobots(robots, Quadrant(k), roomWidth, roomHeight);
    }
  }

  /** The answer: the product of the four quadrant counts. */
  function SafetyFactor(robots: seq<Robot>, w: int, h: int): int
  {
    RobotsSelected(robots, Quadrant(0), w, h) * RobotsSelected(robots, Quadrant(1), w, h) *
    RobotsSelected(robots, Quadrant(2), w, h) * RobotsSelected(robots, Quadrant(3), w, h)
  }

  /** The product loop of Day14. */
  method Product(counts: array<int>) returns (answer: int)
    ensures answer == Multiplied(counts[..])
  {
    answer := 1;
    for k := 0 to counts.Length
      invariant answer == Multiplied(counts[..k])
    {
      assert counts[..k + 1][..k] == counts[..k];
      answer := answer * counts[k];
    }
    assert counts[..counts.Length] == counts[..];
  }

  function Multiplied(s: seq<int>): int
  {
    if s == [] then 1 else Multiplied(s[..|s| - 1]) * s[|s| - 1]
  }

  lemma MultipliedFour(s: seq<int>)
    requires |s| == 4
    ensures Multiplied(s) == s[0] * s[1] * s[2] * s[3]
  {
    assert s[..3][..2] == s[..2] && s[..2][..1] == s[..1] && s[..1][..0] == [];
    assert Multiplied(s[..1]) == s[0];
    assert Multiplied(s[..2]) == s[0] * s[1];
    assert Multiplied(s[..3]) == s[0] * s[1] * s[2];
  }

  /** Day14: parse the robots, mark them in the room, move each one Steps
      times, clear and mark the room again, count the quadrants and
      multiply the counts. Marking indexes the room, so every robot must be
      in the room at the start and at the end. */
  method Day14(inputMemory: string) returns (answer: int)
    requires AllReadable(Split(TrimSpace(inputMemory), "\n"))
    requires AllInRoom(ParsedRobots(Split(TrimSpace(inputMemory), "\n")), RoomWidth, RoomHeight)
    requires AllInRoom(Moved(ParsedRobots(Split(TrimSpace(inputMemory), "\n")), Steps, RoomWidth, RoomHeight),
                       RoomWidth, RoomHeight)
    ensures answer == SafetyFactor(Moved(ParsedRobots(Split(TrimSpace(inputMemory), "\n")), Steps, RoomWidth, RoomHeight),
                                   RoomWidth, RoomHeight)
  {
    var robots := ParseRobots(inputMemory);
    ghost var moved := Moved(robots, Steps, RoomWidth, RoomHeight);
    assert AllInRoom(moved, RoomWidth, RoomHeight);
    var rooms := new int[RoomWidth, RoomHeight]((i, j) => 0);
    MarkRobots(rooms, robots);
    robots := MoveRobots(robots, Steps, RoomWidth, RoomHeight);
    assert robots == moved;
    ClearRoom(rooms);
    MarkRobots(rooms, robots);
    var quadrantRobotCount := CountQuadrants(rooms, robots);
    answer := Product(quadrantRobotCount);
    MultipliedFour(quadrantRobotCount[..]);
  }

  /** Robots that start in the room and are slow enough end in the room,
      so Day14 can be run on them. */
  lemma SlowRobotsStayInRoom(robots: seq<Robot>, steps: nat, w: int, h: int)
    requires w > 0 && h > 0 && AllInRoom(robots, w, h)
    requires forall k :: 0 <= k < |robots| ==> SlowEnough(robots[k], w, h)
    ensures AllInRoom(Moved(robots, steps, w, h), w, h)
  {
    forall k | 0 <= k < |robots|
      ensures InRoom(Moved(robots, steps, w, h)[k], w, h)
    {
      SimulateWraps(robots[k], steps, w, h);
    }
  }
}
