/** Day 11: stones that change on every blink. A stone 0 becomes 1, a stone
    whose decimal text has an even number of characters splits into the two
    halves of that text (each parsed as an integer), and any other stone is
    multiplied by 2024. The solver counts, for each starting stone, how many
    stones it becomes after a number of blinks, with a memo table keyed by
    (stone, blinks remaining). */
module Day11 {
  import opened GoText

  /** Length of strconv.FormatInt(stone, 10): a minus sign counts as one character. */
  function FormattedLength(stone: int): (len: nat)
    ensures len >= 1
  {
    if stone < 0 then 1 + NumDigits(-stone) else NumDigits(stone)
  }

  /** The two stones an even-length stone splits into: the halves of its
      decimal text, each parsed as an integer with the error ignored. For a
      negative stone the left half starts with the minus sign; a bare "-"
      does not parse and leaves 0. */
  function SplitStone(stone: int): (int, int)
  {
    var text := FormatInt(stone);
    var mid := |text| / 2;
    (AtoiOrZero(text[..mid]), AtoiOrZero(text[mid..]))
  }

  /** The halves of a stone in arithmetic: quotient and remainder of its
      magnitude by the power of ten that covers the right half of its text.
      A negative stone keeps its sign on the left half, which is 0 when
      that half would be the bare minus sign. */
  function Halves(stone: int): (int, int)
  {
    var len := FormattedLength(stone);
    var mid := len / 2;
    var p := Pow10(len - mid);
    if stone >= 0 then (stone / p, stone % p)
    else (if mid == 1 then 0 else -((-stone) / p), (-stone) % p)
  }

  /** The number of stones `stone` becomes after `blinks` blinks, by the three
      rules and without any memo table. A budget of zero or less leaves the
      stone alone. */
  function Blinks(stone: int, blinks: int): (count: nat)
    decreases blinks
    ensures count >= 1
  {
    if blinks <= 0 then 1
    else if stone == 0 then Blinks(1, blinks - 1)
    else if FormattedLength(stone) % 2 == 0 then
      var (left, right) := Halves(stone);
      Blinks(left, blinks - 1) + Blinks(right, blinks - 1)
    else Blinks(stone * 2024, blinks - 1)
  }

  lemma DivModUnique(x: int, p: int, q: int, r: int)
    requires p > 0 && 0 <= r < p && x == q * p + r
    ensures x / p == q && x % p == r
  {
    var d := q - x / p;
    assert x == (x / p) * p + x % p;
    assert d * p == x % p - r;
    MulAwayFromZero(d, p);
  }

  lemma MulAwayFromZero(d: int, p: int)
    requires p > 0
    ensures d >= 1 ==> d * p >= p
    ensures d <= -1 ==> d * p <= -p
  {
  }

  /** The length used by the rules is that of the decimal text. */
  lemma FormattedLengthIsTextLength(stone: int)
    ensures FormattedLength(stone) == |FormatInt(stone)|
  {
    if stone < 0 {
      FormatNatFacts(-stone);
    } else {
      FormatNatFacts(stone);
    }
  }

  /** The text split is division and remainder by a power of ten: the
      right half loses its leading zeros (1000 gives 10 and 0), and a
      negative stone keeps its sign on the left half, which is 0 when that
      half is the bare minus sign. */
  lemma SplitStoneByPowersOfTen(stone: int)
    requires FormattedLength(stone) % 2 == 0
    ensures SplitStone(stone) == Halves(stone)
  {
    if stone >= 0 {
      SplitNonNegative(stone);
    } else {
      SplitNegative(stone);
    }
  }

  /** Cutting a run of decimal digits after `cut` digits is division and
      remainder by a power of ten. */
  lemma SplitDigits(digits: string, cut: nat)
    requires AllDigits(digits) && cut <= |digits|
    ensures AllDigits(digits[..cut]) && AllDigits(digits[cut..])
    ensures DigitsValue(digits) / Pow10(|digits| - cut) == DigitsValue(digits[..cut])
    ensures DigitsValue(digits) % Pow10(|digits| - cut) == DigitsValue(digits[cut..])
  {
    SplitDigitsSum(digits, cut);
    DivModUnique(DigitsValue(digits), Pow10(|digits| - cut), DigitsValue(digits[..cut]), DigitsValue(digits[cut..]));
  }

  /** The digits cut after `cut` digits: the left part shifted by the length
      of the right part, plus the right part. */
  lemma SplitDigitsSum(digits: string, cut: nat)
    requires AllDigits(digits) && cut <= |digits|
    ensures AllDigits(digits[..cut]) && AllDigits(digits[cut..])
    ensures DigitsValue(digits) == DigitsValue(digits[..cut]) * Pow10(|digits| - cut) + DigitsValue(digits[cut..])
    ensures DigitsValue(digits[cut..]) < Pow10(|digits| - cut)
  {
    var leftDigits, rightDigits := digits[..cut], digits[cut..];
    assert digits == leftDigits + rightDigits;
    DigitsValueAppend(leftDigits, rightDigits);
    DigitsValueBound(rightDigits);
  }

  lemma SplitNonNegative(stone: int)
    requires stone >= 0 && FormattedLength(stone) % 2 == 0
    ensures var len := FormattedLength(stone);
            var p := Pow10(len - len / 2);
            SplitStone(stone) == (stone / p, stone % p)
  {
    var text := FormatNat(stone);
    FormatNatFacts(stone);
    assert FormatInt(stone) == text;
    var len := FormattedLength(stone);
    assert len == |text|;
    var mid := len / 2;
    SplitDigits(text, mid);
    assert |text| - mid == len - mid;
    assert ParseInt(text[..mid]) == Some(DigitsValue(text[..mid]));
    assert ParseInt(text[mid..]) == Some(DigitsValue(text[mid..]));
    assert SplitStone(stone) == (AtoiOrZero(text[..mid]), AtoiOrZero(text[mid..]));
  }

  /** splitStone cuts the given rendering of the stone in the middle. */
  lemma SplitStoneOfText(stone: int, text: string)
    requires FormatInt(stone) == text
    ensures SplitStone(stone) == (AtoiOrZero(text[..|text| / 2]), AtoiOrZero(text[|text| / 2..]))
  {
  }

  lemma HalfBounds(len: nat)
    requires len >= 2
    ensures 1 <= len / 2 <= len - 1
  {
  }

  lemma HalvesOfNegative(stone: int, m: nat, len: nat, mid: nat, p: nat)
    requires stone < 0 && m == -stone && len == FormattedLength(stone)
    requires mid == len / 2 && p == Pow10(len - mid)
    ensures Halves(stone) == (if mid == 1 then 0 else -(m / p), m % p)
  {
  }

  lemma SplitNegative(stone: int)
    requires stone < 0 && FormattedLength(stone) % 2 == 0
    ensures SplitStone(stone) == Halves(stone)
  {
    var m := -stone;
    var digits := FormatNat(m);
    var text := FormatInt(stone);
    NegativeText(stone);
    var len := FormattedLength(stone);
    var mid := len / 2;
    HalfBounds(len);
    var p := Pow10(len - mid);
    NegativeHalves(text, digits, m, mid, p);
    SplitStoneOfText(stone, text);
    HalvesOfNegative(stone, m, len, mid, p);
  }

  /** The text of a negative stone: a minus sign, then the digits of its
      magnitude. */
  lemma NegativeText(stone: int)
    requires stone < 0
    ensures FormatInt(stone) == "-" + FormatNat(-stone)
    ensures AllDigits(FormatNat(-stone)) && DigitsValue(FormatNat(-stone)) == -stone
    ensures |FormatInt(stone)| == FormattedLength(stone) == 1 + |FormatNat(-stone)|
  {
    FormatNatFacts(-stone);
  }

  /** The halves of a minus sign followed by `digits`, cut after `mid`
      characters: the left half keeps the sign (and is 0 when it is the bare
      sign), the right half is a remainder. */
  lemma NegativeHalves(text: string, digits: string, m: nat, mid: nat, p: nat)
    requires AllDigits(digits) && DigitsValue(digits) == m && text == "-" + digits
    requires 1 <= mid <= |digits| && p == Pow10(|digits| + 1 - mid)
    ensures AtoiOrZero(text[mid..]) == m % p
    ensures AtoiOrZero(text[..mid]) == (if mid == 1 then 0 else -(m / p))
  {
    SplitDigits(digits, mid - 1);
    assert |digits| - (mid - 1) == |digits| + 1 - mid;
    NegativeRightHalf(text, digits, mid);
    NegativeLeftHalf(text, digits, mid);
  }

  lemma NegativeRightHalf(text: string, digits: string, mid: nat)
    requires AllDigits(digits) && text == "-" + digits && 1 <= mid <= |digits|
    ensures AtoiOrZero(text[mid..]) == DigitsValue(digits[mid - 1..])
  {
    assert text[mid..] == digits[mid - 1..];
    assert AllDigits(digits[mid - 1..]);
  }

  lemma NegativeLeftHalf(text: string, digits: string, mid: nat)
    requires AllDigits(digits) && text == "-" + digits && 1 <= mid <= |digits|
    ensures AtoiOrZero(text[..mid]) == (if mid == 1 then 0 else -(DigitsValue(digits[..mid - 1]) as int))
  {
    assert text[..mid] == "-" + digits[..mid - 1];
    assert AllDigits(digits[..mid - 1]);
    ParseNegative(digits[..mid - 1]);
  }

  /** The first rule: 0 counts as 1 with one blink fewer. */
  lemma BlinksOfZero(blinks: int)
    requires blinks > 0
    ensures Blinks(0, blinks) == Blinks(1, blinks - 1)
  {
  }

  /** The third rule: any other stone counts as 2024 times itself with one
      blink fewer. */
  lemma BlinksOfOddLength(stone: int, blinks: int)
    requires blinks > 0 && stone != 0 && FormattedLength(stone) % 2 != 0
    ensures Blinks(stone, blinks) == Blinks(stone * 2024, blinks - 1)
  {
  }

  /** The second rule: an even-length stone counts as its two halves. */
  lemma BlinksOfEvenLength(stone: int, blinks: int, left: int, right: int)
    requires blinks > 0 && stone != 0 && FormattedLength(stone) % 2 == 0
    requires (left, right) == Halves(stone)
    ensures Blinks(stone, blinks) == Blinks(left, blinks - 1) + Blinks(right, blinks - 1)
  {
  }

  /** The count grows at most by doubling on each blink. */
  lemma {:induction false} BlinksAtMostDoubling(stone: int, blinks: nat)
    ensures Blinks(stone, blinks) <= Pow2(blinks)
    decreases blinks
  {
    if blinks > 0 {
      assert Pow2(blinks) == 2 * Pow2(blinks - 1);
      if stone == 0 {
        BlinksAtMostDoubling(1, blinks - 1);
        BlinksOfZero(blinks);
      } else if FormattedLength(stone) % 2 == 0 {
        var (left, right) := Halves(stone);
        BlinksAtMostDoubling(left, blinks - 1);
        BlinksAtMostDoubling(right, blinks - 1);
        BlinksOfEvenLength(stone, blinks, left, right);
      } else {
        BlinksAtMostDoubling(stone * 2024, blinks - 1);
        BlinksOfOddLength(stone, blinks);
      }
    }
  }

  function Pow2(k: nat): (r: nat)
    ensures r >= 1
  {
    if k == 0 then 1 else 2 * Pow2(k - 1)
  }

  /** Memo key: the Go struct blinkCache. */
  datatype BlinkCache = BlinkCache(stone: int, blinkCount: int)

  /** Holder of the memo table (the Go code keeps it in the package-level map
      cachedBlinks). */
  class BlinkMemo {
    var cachedBlinks: map<BlinkCache, nat>

    /** Every stored count is what the rules compute for its key. */
    ghost predicate Valid()
      reads this
    {
      forall key :: key in cachedBlinks ==> cachedBlinks[key] == Blinks(key.stone, key.blinkCount)
    }

    constructor ()
      ensures Valid() && cachedBlinks == map[]
    {
      cachedBlinks := map[];
    }

    /** blinkRecurse: the memoised count. A hit returns the stored entry; a
        miss computes by the rules and stores the result under its key. The
        table only grows and its old entries keep their values. */
    method BlinkRecurse(stone: int, blinkCount: int) returns (stoneCount: nat)
      requires Valid()
      modifies this
      decreases blinkCount, 2
      ensures Valid()
      ensures stoneCount == Blinks(stone, blinkCount)
      ensures blinkCount <= 0 ==> cachedBlinks == old(cachedBlinks)
      ensures blinkCount > 0 ==> BlinkCache(stone, blinkCount) in cachedBlinks
                                 && cachedBlinks[BlinkCache(stone, blinkCount)] == stoneCount
      ensures Extends(old(cachedBlinks), cachedBlinks)
    {
      if blinkCount <= 0 {
        return 1;
      }
      var cacheKey := BlinkCache(stone, blinkCount);
      if cacheKey in cachedBlinks {
        return cachedBlinks[cacheKey];
      }
      stoneCount := ApplyRules(stone, blinkCount);
      Store(stone, blinkCount, stoneCount);
    }

    /** The uncached step of blinkRecurse: one blink by the rules, then the
        remaining blinks of each resulting stone through the table. */
    method ApplyRules(stone: int, blinkCount: int) returns (stoneCount: nat)
      requires Valid() && blinkCount > 0
      modifies this
      decreases blinkCount, 1
      ensures Valid() && stoneCount == Blinks(stone, blinkCount)
      ensures Extends(old(cachedBlinks), cachedBlinks)
    {
      if stone == 0 {
        stoneCount := BlinkRecurse(1, blinkCount - 1);
        BlinksOfZero(blinkCount);
      } else if FormattedLength(stone) % 2 == 0 {
        stoneCount := BlinkHalves(stone, blinkCount);
      } else {
        stoneCount := BlinkRecurse(stone * 2024, blinkCount - 1);
        BlinksOfOddLength(stone, blinkCount);
      }
    }

    /** The second rule inside blinkRecurse: splitStone gives the halves of
        the text, and the count is the sum of the halves' counts. */
    method BlinkHalves(stone: int, blinkCount: int) returns (stoneCount: nat)
      requires Valid() && blinkCount > 0 && stone != 0 && FormattedLength(stone) % 2 == 0
      modifies this
      decreases blinkCount, 0
      ensures Valid() && stoneCount == Blinks(stone, blinkCount)
      ensures Extends(old(cachedBlinks), cachedBlinks)
    {
      var leftStone, rightStone := CallSplitStone(stone);
      BlinksOfEvenLength(stone, blinkCount, leftStone, rightStone);
      ghost var before := cachedBlinks;
      var leftCount := BlinkRecurse(leftStone, blinkCount - 1);
      ghost var between := cachedBlinks;
      var rightCount := BlinkRecurse(rightStone, blinkCount - 1);
      ExtendsTransitive(before, between, cachedBlinks);
      stoneCount := leftCount + rightCount;
    }

    /** A call of splitStone on an even-length stone, whose result the rules
        see as the arithmetic halves. */
    static method CallSplitStone(stone: int) returns (leftStone: int, rightStone: int)
      requires FormattedLength(stone) % 2 == 0
      ensures (leftStone, rightStone) == Halves(stone)
    {
      leftStone, rightStone := SplitStone(stone).0, SplitStone(stone).1;
      SplitStoneByPowersOfTen(stone);
    }

    /** Records a count that agrees with the rules under its key. */
    method Store(stone: int, blinkCount: int, count: nat)
      requires Valid() && count == Blinks(stone, blinkCount)
      modifies this
      ensures Valid() && cachedBlinks == old(cachedBlinks)[BlinkCache(stone, blinkCount) := count]
    {
      var cacheKey := BlinkCache(stone, blinkCount);
      cachedBlinks := cachedBlinks[cacheKey := count];
    }
  }

  /** Every entry of the first table is in the second with the same count. */
  predicate Extends(before: map<BlinkCache, nat>, after: map<BlinkCache, nat>)
  {
    forall key :: key in before ==> key in after && after[key] == before[key]
  }

  lemma ExtendsTransitive(a: map<BlinkCache, nat>, b: map<BlinkCache, nat>, c: map<BlinkCache, nat>)
    requires Extends(a, b) && Extends(b, c)
    ensures Extends(a, c)
  {
  }

  /** Sum of the counts over a row of starting stones. */
  function TotalBlinks(stones: seq<int>, blinks: int): nat
  {
    if stones == [] then 0 else Blinks(stones[0], blinks) + TotalBlinks(stones[1..], blinks)
  }

  lemma {:induction false} TotalBlinksAppend(stones: seq<int>, stone: int, blinks: int)
    ensures TotalBlinks(stones + [stone], blinks) == TotalBlinks(stones, blinks) + Blinks(stone, blinks)
  {
    if stones != [] {
      assert (stones + [stone])[1..] == stones[1..] + [stone];
      TotalBlinksAppend(stones[1..], stone, blinks);
    }
  }

  /** The total over a suffix: its first stone's count plus the rest. */
  lemma TotalBlinksStep(stones: seq<int>, i: nat, blinks: int)
    requires i < |stones|
    ensures TotalBlinks(stones[i..], blinks) == Blinks(stones[i], blinks) + TotalBlinks(stones[i + 1..], blinks)
  {
    assert stones[i..][1..] == stones[i + 1..];
  }

  /** Every stone accounts for at least one stone in the total. */
  lemma {:induction false} TotalAtLeastStoneCount(stones: seq<int>, blinks: int)
    ensures TotalBlinks(stones, blinks) >= |stones|
  {
    if stones != [] {
      TotalAtLeastStoneCount(stones[1..], blinks);
    }
  }

  /** The order of the starting stones does not matter. */
  lemma {:induction false} TotalBlinksPermutation(a: seq<int>, b: seq<int>, blinks: int)
    requires multiset(a) == multiset(b)
    ensures TotalBlinks(a, blinks) == TotalBlinks(b, blinks)
    decreases |a|
  {
    if a != [] {
      assert a[0] in multiset(b);
      var j :| 0 <= j < |b| && b[j] == a[0];
      var rest := b[..j] + b[j + 1..];
      assert b == b[..j] + [b[j]] + b[j + 1..];
      assert a == [a[0]] + a[1..];
      assert multiset(b) == multiset(b[..j]) + multiset{b[j]} + multiset(b[j + 1..]);
      assert multiset(rest) == multiset(b[..j]) + multiset(b[j + 1..]);
      assert multiset(a) == multiset{a[0]} + multiset(a[1..]);
      assert multiset(a[1..]) == multiset(a) - multiset{a[0]};
      assert multiset(rest) == multiset(b) - multiset{b[j]};
      TotalBlinksPermutation(a[1..], rest, blinks);
      TotalBlinksRemove(b, j, blinks);
    } else {
      assert |b| == |multiset(b)| == 0;
    }
  }

  lemma {:induction false} TotalBlinksRemove(b: seq<int>, j: nat, blinks: int)
    requires j < |b|
    ensures TotalBlinks(b, blinks) == Blinks(b[j], blinks) + TotalBlinks(b[..j] + b[j + 1..], blinks)
  {
    if j > 0 {
      TotalBlinksRemove(b[1..], j - 1, blinks);
      assert b[1..][..j - 1] + b[1..][j..] == (b[..j] + b[j + 1..])[1..];
    } else {
      assert b[..0] + b[1..] == b[1..];
    }
  }

  /** The input line split on single spaces, unparsable fields skipped. */
  method ParseStones(line: string) returns (stones: seq<int>)
    ensures stones == ParsedInts(Split(line, " "))
  {
    var fields := Split(line, " ");
    stones := [];
    var i := 0;
    while i < |fields|
      invariant 0 <= i <= |fields|
      invariant stones + ParsedInts(fields[i..]) == ParsedInts(fields)
    {
      ParsedIntsStep(fields, i);
      match ParseInt(fields[i]) {
        case None =>
        case Some(num) =>
          stones := stones + [num];
      }
      i := i + 1;
    }
  }

  /** The Day 11 answer: the total count over the parsed stones after
      blinkCount blinks, accumulated stone by stone through one memo table
      that starts empty. */
  method Day11(line: string, blinkCount: int) returns (totalStoneCount: nat)
    ensures totalStoneCount == TotalBlinks(ParsedInts(Split(line, " ")), blinkCount)
  {
    var stones := ParseStones(line);
    var memo := new BlinkMemo();
    totalStoneCount := 0;
    var i := 0;
    while i < |stones|
      invariant 0 <= i <= |stones|
      invariant memo.Valid()
      invariant totalStoneCount + TotalBlinks(stones[i..], blinkCount) == TotalBlinks(stones, blinkCount)
    {
      var blinkRecurseCount := memo.BlinkRecurse(stones[i], blinkCount);
      TotalBlinksStep(stones, i, blinkCount);
      totalStoneCount := totalStoneCount + blinkRecurseCount;
      i := i + 1;
    }
  }

  /** One blink of 125 and 17: 125 has three digits and becomes 253000, 17
      splits into 1 and 7, three stones in all. */
  lemma OneBlinkExample()
    ensures TotalBlinks([125, 17], 1) == 3
  {
    assert FormattedLength(125) == 3;
    assert FormattedLength(17) == 2;
    SplitStoneByPowersOfTen(17);
  }

  /** A stone 1000 splits into 10 and 0: the right half "00" parses as 0. */
  lemma SplitDropsLeadingZeros()
    ensures FormattedLength(1000) == 4 && SplitStone(1000) == (10, 0)
  {
    assert NumDigits(1000) == 4;
    SplitStoneByPowersOfTen(1000);
  }
}
