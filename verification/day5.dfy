/** Day 5: print-queue updates. The input holds page-order rules "X|Y" (page X
    must come before page Y), a blank line, then updates, each a
    comma-separated list of pages. Part 1 sums the middle page of the updates
    that already respect the rules; part 2 repeatedly moves pages of the other
    updates until they respect the rules, then sums their middle pages.
    Pages are compared as text throughout; a rule "names" a page when its text
    contains "|" followed by the page, a substring test. */
module Day5 {
  import opened GoText

  /** contains: membership of a string in a list. */
  function SliceContains(slice: seq<string>, str: string): (found: bool)
    ensures found <==> str in slice
  {
    if |slice| == 0 then false
    else if slice[0] == str then true
    else SliceContains(slice[1..], str)
  }

  /** The rule's text contains "|" followed by the page. */
  predicate NamesPage(rule: string, page: string)
  {
    Contains(rule, "|" + page)
  }

  /** The text of a rule before its first "|". */
  function RuleLeft(rule: string): string
  {
    Split(rule, "|")[0]
  }

  /** The left sides of the rules that name the page, in rule order: the
      pages that must come before it. */
  function MustFollow(rules: seq<string>, page: string): (mustFollow: seq<string>)
    ensures |mustFollow| <= |rules|
  {
    if |rules| == 0 then []
    else
      var rest := MustFollow(rules[1..], page);
      if NamesPage(rules[0], page) then [RuleLeft(rules[0])] + rest else rest
  }

  /** A page must come before `page` exactly when it is the left side of a
      rule that names `page`. */
  lemma {:induction false} MustFollowMeaning(rules: seq<string>, page: string, x: string)
    ensures x in MustFollow(rules, page) <==>
              exists j :: 0 <= j < |rules| && NamesPage(rules[j], page) && RuleLeft(rules[j]) == x
  {
    if |rules| > 0 {
      MustFollowMeaning(rules[1..], page, x);
      if exists j :: 0 <= j < |rules| && NamesPage(rules[j], page) && RuleLeft(rules[j]) == x {
        var j :| 0 <= j < |rules| && NamesPage(rules[j], page) && RuleLeft(rules[j]) == x;
        if j > 0 {
          assert rules[1..][j - 1] == rules[j];
        }
      }
      if x in MustFollow(rules[1..], page) {
        var j :| 0 <= j < |rules| - 1 && NamesPage(rules[1..][j], page) && RuleLeft(rules[1..][j]) == x;
        assert rules[j + 1] == rules[1..][j];
      }
    }
  }

  /** No page of `pages` is in the list. */
  function NoneListed(mustFollow: seq<string>, pages: seq<string>): (none: bool)
    ensures none <==> forall i :: 0 <= i < |pages| ==> pages[i] !in mustFollow
  {
    if |pages| == 0 then true
    else !SliceContains(mustFollow, pages[0]) && NoneListed(mustFollow, pages[1..])
  }

  /** validateOrder: the page at index k is in order when no later page is
      one that must come before it. */
  function ValidateOrder(rules: seq<string>, k: nat, update: seq<string>): (validOrder: bool)
    requires k < |update|
    ensures validOrder <==> forall i :: k < i < |update| ==> update[i] !in MustFollow(rules, update[k])
  {
    var mustFollow := MustFollow(rules, update[k]);
    var later := update[k + 1..];
    var r := NoneListed(mustFollow, later);
    assert forall i :: k < i < |update| ==> update[i] == later[i - k - 1];
    r
  }

  /** In terms of the rules: the page at k is out of order exactly when some
      later page is the left side of a rule whose text names it. */
  lemma ValidateOrderMeaning(rules: seq<string>, k: nat, update: seq<string>)
    requires k < |update|
    ensures !ValidateOrder(rules, k, update) <==>
              exists i, j :: k < i < |update| && 0 <= j < |rules| && NamesPage(rules[j], update[k])
                             && RuleLeft(rules[j]) == update[i]
  {
    if !ValidateOrder(rules, k, update) {
      var i :| k < i < |update| && update[i] in MustFollow(rules, update[k]);
      MustFollowMeaning(rules, update[k], update[i]);
    }
    if exists i, j :: k < i < |update| && 0 <= j < |rules| && NamesPage(rules[j], update[k])
                      && RuleLeft(rules[j]) == update[i] {
      var i, j :| k < i < |update| && 0 <= j < |rules| && NamesPage(rules[j], update[k])
                  && RuleLeft(rules[j]) == update[i];
      MustFollowMeaning(rules, update[k], update[i]);
    }
  }

  /** Every page of the update is in order. */
  predicate AllValid(rules: seq<string>, update: seq<string>)
  {
    forall k :: 0 <= k < |update| ==> ValidateOrder(rules, k, update)
  }

  /** getMiddlePage: as many pages before it as after it, or one more
      before it when the length is even. */
  function GetMiddlePage(update: seq<string>): (mid: nat)
    ensures 2 * mid <= |update| <= 2 * mid + 1
    ensures |update| > 0 ==> mid < |update|
  {
    |update| / 2
  }

  /** The middle page read as an integer; a page that does not parse counts 0. */
  function MiddleValue(update: seq<string>): int
    requires |update| > 0
  {
    AtoiOrZero(update[GetMiddlePage(update)])
  }

  /** listAddAt: the list with the new element inserted right after index
      posAddAfter; an index outside the list gives a plain copy. */
  function ListAddAt(orgList: seq<string>, posAddAfter: int, newElement: string): (newList: seq<string>)
    ensures 0 <= posAddAfter < |orgList| ==>
              newList == orgList[..posAddAfter + 1] + [newElement] + orgList[posAddAfter + 1..]
    ensures !(0 <= posAddAfter < |orgList|) ==> newList == orgList
  {
    if |orgList| == 0 then []
    else
      var last := |orgList| - 1;
      var init := ListAddAt(orgList[..last], posAddAfter, newElement);
      assert orgList == orgList[..last] + [orgList[last]];
      init + [orgList[last]] + (if last == posAddAfter then [newElement] else [])
  }

  /** listRemAt: the list without index posRem, provided that index holds
      remElement; otherwise a plain copy. */
  function ListRemAt(orgList: seq<string>, posRem: int, remElement: string): (newList: seq<string>)
    ensures 0 <= posRem < |orgList| && orgList[posRem] == remElement ==>
              newList == orgList[..posRem] + orgList[posRem + 1..]
    ensures !(0 <= posRem < |orgList| && orgList[posRem] == remElement) ==> newList == orgList
  {
    if |orgList| == 0 then []
    else
      var last := |orgList| - 1;
      var init := ListRemAt(orgList[..last], posRem, remElement);
      assert orgList == orgList[..last] + [orgList[last]];
      init + (if last == posRem && orgList[last] == remElement then [] else [orgList[last]])
  }

  /** Removing what was just added, one place further on, gives the list back. */
  lemma AddThenRemove(orgList: seq<string>, pos: nat, element: string)
    requires pos < |orgList|
    ensures ListRemAt(ListAddAt(orgList, pos, element), pos + 1, element) == orgList
  {
    var added := ListAddAt(orgList, pos, element);
    assert added[pos + 1] == element;
    assert added[..pos + 1] + added[pos + 2..] == orgList;
  }

  /** Index i holds the first page after k that must come before the page
      at k. */
  predicate FirstPredecessor(rules: seq<string>, k: nat, update: seq<string>, i: nat)
    requires k < |update|
  {
    k < i < |update| && update[i] in MustFollow(rules, update[k])
    && forall j :: k < j < i ==> update[j] !in MustFollow(rules, update[k])
  }

  /** The update with the page at k taken out and put back just after index i. */
  function MovedAfter(update: seq<string>, k: nat, i: nat): seq<string>
    requires k < i < |update|
  {
    update[..k] + update[k + 1..i + 1] + [update[k]] + update[i + 1..]
  }

  /** moveOrder: if some page after index k must come before the page at k,
      that page is moved to just after the first such later page; otherwise
      the update is returned as is. No page is lost or duplicated. */
  method MoveOrder(rules: seq<string>, thisIndex: nat, update: seq<string>) returns (moved: seq<string>)
    requires thisIndex < |update|
    ensures |moved| == |update| && multiset(moved) == multiset(update)
    ensures ValidateOrder(rules, thisIndex, update) ==> moved == update
    ensures forall i :: FirstPredecessor(rules, thisIndex, update, i) ==> moved == MovedAfter(update, thisIndex, i)
  {
    var mustFollow := MustFollow(rules, update[thisIndex]);
    var updatePage := update[thisIndex];
    moved := update;
    var i := thisIndex + 1;
    while i < |moved|
      invariant thisIndex + 1 <= i <= |update|
      invariant moved == update
      invariant forall j :: thisIndex < j < i ==> update[j] !in mustFollow
    {
      if SliceContains(mustFollow, moved[i]) {
        assert FirstPredecessor(rules, thisIndex, update, i);
        AddThenRemoveEarlier(update, thisIndex, i);
        moved := ListAddAt(moved, i, updatePage);
        moved := ListRemAt(moved, thisIndex, updatePage);
        MovedKeepsPages(update, thisIndex, i);
        FirstPredecessorUnique(rules, thisIndex, update, i);
        return;
      }
      i := i + 1;
    }
  }

  lemma FirstPredecessorUnique(rules: seq<string>, k: nat, update: seq<string>, i: nat)
    requires k < |update| && FirstPredecessor(rules, k, update, i)
    ensures forall i' :: FirstPredecessor(rules, k, update, i') ==> i' == i
  {
  }

  /** Inserting the page at k after index i and then removing index k is the
      move. */
  lemma AddThenRemoveEarlier(update: seq<string>, k: nat, i: nat)
    requires k < i < |update|
    ensures ListRemAt(ListAddAt(update, i, update[k]), k, update[k]) == MovedAfter(update, k, i)
  {
    var added := ListAddAt(update, i, update[k]);
    assert added[k] == update[k];
    assert added[..k] + added[k + 1..] == MovedAfter(update, k, i);
  }

  lemma MovedKeepsPages(update: seq<string>, k: nat, i: nat)
    requires k < i < |update|
    ensures |MovedAfter(update, k, i)| == |update|
    ensures multiset(MovedAfter(update, k, i)) == multiset(update)
  {
    assert update == update[..k] + [update[k]] + update[k + 1..i + 1] + update[i + 1..];
  }

  /** The inner loop of day5part1/day5part2 over the pages of one update:
      every index is validated, with no early exit. */
  method CheckUpdate(rules: seq<string>, update: seq<string>) returns (allValid: bool)
    ensures allValid <==> AllValid(rules, update)
  {
    allValid := true;
    var i := 0;
    while i < |update|
      invariant 0 <= i <= |update|
      invariant allValid <==> forall k :: 0 <= k < i ==> ValidateOrder(rules, k, update)
    {
      if !ValidateOrder(rules, i, update) {
        allValid := false;
      }
      i := i + 1;
    }
  }

  /** Sum of the middle pages of the updates that respect the rules. */
  function ValidMiddleSum(rules: seq<string>, updates: seq<seq<string>>): int
    requires forall t :: 0 <= t < |updates| ==> |updates[t]| > 0
  {
    if |updates| == 0 then 0
    else
      var last := |updates| - 1;
      ValidMiddleSum(rules, updates[..last]) + (if AllValid(rules, updates[last]) then MiddleValue(updates[last]) else 0)
  }

  /** Sum of the middle pages of the updates that break a rule. */
  function InvalidMiddleSum(rules: seq<string>, updates: seq<seq<string>>): int
    requires forall t :: 0 <= t < |updates| ==> |updates[t]| > 0
  {
    if |updates| == 0 then 0
    else
      var last := |updates| - 1;
      InvalidMiddleSum(rules, updates[..last]) + (if AllValid(rules, updates[last]) then 0 else MiddleValue(updates[last]))
  }

  function AllMiddleSum(updates: seq<seq<string>>): int
    requires forall t :: 0 <= t < |updates| ==> |updates[t]| > 0
  {
    if |updates| == 0 then 0 else AllMiddleSum(updates[..|updates| - 1]) + MiddleValue(updates[|updates| - 1])
  }

  /** Every update falls in exactly one of the two sums. */
  lemma {:induction false} MiddleSumsPartition(rules: seq<string>, updates: seq<seq<string>>)
    requires forall t :: 0 <= t < |updates| ==> |updates[t]| > 0
    ensures ValidMiddleSum(rules, updates) + InvalidMiddleSum(rules, updates) == AllMiddleSum(updates)
  {
    if |updates| > 0 {
      MiddleSumsPartition(rules, updates[..|updates| - 1]);
    }
  }

  /** day5part1: the sum of the middle pages of the updates that respect the
      rules. Every update must be non-empty, as an empty one would count as
      respecting the rules and have no middle page. */
  method Day5Part1(inputUpdates: seq<seq<string>>, inputRules: seq<string>) returns (middleOfTruth: int)
    requires forall t :: 0 <= t < |inputUpdates| ==> |inputUpdates[t]| > 0
    ensures middleOfTruth == ValidMiddleSum(inputRules, inputUpdates)
  {
    middleOfTruth := 0;
    var t := 0;
    while t < |inputUpdates|
      invariant 0 <= t <= |inputUpdates|
      invariant middleOfTruth == ValidMiddleSum(inputRules, inputUpdates[..t])
    {
      var update := inputUpdates[t];
      var allValid := CheckUpdate(inputRules, update);
      assert inputUpdates[..t + 1][..t] == inputUpdates[..t];
      if allValid {
        var middlePage := update[GetMiddlePage(update)];
        middleOfTruth := middleOfTruth + AtoiOrZero(middlePage);
      }
      t := t + 1;
    }
    assert inputUpdates[..t] == inputUpdates;
  }

  /** Indices of the updates that break a rule, in increasing order. */
  function InvalidIndices(rules: seq<string>, updates: seq<seq<string>>): (indices: seq<nat>)
    ensures forall m :: 0 <= m < |indices| ==> indices[m] < |updates| && !AllValid(rules, updates[indices[m]])
  {
    if |updates| == 0 then []
    else
      var last := |updates| - 1;
      var init := InvalidIndices(rules, updates[..last]);
      init + (if AllValid(rules, updates[last]) then [] else [last])
  }

  /** Every update that breaks a rule is listed. */
  lemma {:induction false} InvalidIndicesComplete(rules: seq<string>, updates: seq<seq<string>>, t: nat)
    requires t < |updates| && !AllValid(rules, updates[t])
    ensures t in InvalidIndices(rules, updates)
  {
    var last := |updates| - 1;
    var init := updates[..last];
    var tail := if AllValid(rules, updates[last]) then [] else [last];
    assert InvalidIndices(rules, updates) == InvalidIndices(rules, init) + tail;
    if t < last {
      assert init[t] == updates[t];
      InvalidIndicesComplete(rules, init, t);
    } else {
      assert tail == [last];
    }
  }

  /** Sum of the middle pages of the updates at the given indices. */
  function MiddleSumAt(updates: seq<seq<string>>, indices: seq<nat>): int
    requires forall m :: 0 <= m < |indices| ==> indices[m] < |updates| && |updates[indices[m]]| > 0
  {
    if |indices| == 0 then 0
    else
      var last := |indices| - 1;
      MiddleSumAt(updates, indices[..last]) + MiddleValue(updates[indices[last]])
  }

  /** Without any reordering, summing the invalid updates by index gives the
      same total as InvalidMiddleSum. */
  lemma {:induction false} InvalidMiddleSumByIndex(rules: seq<string>, updates: seq<seq<string>>)
    requires forall t :: 0 <= t < |updates| ==> |updates[t]| > 0
    ensures MiddleSumAt(updates, InvalidIndices(rules, updates)) == InvalidMiddleSum(rules, updates)
  {
    if |updates| > 0 {
      var init := updates[..|updates| - 1];
      InvalidMiddleSumByIndex(rules, init);
      MiddleSumAtPrefix(init, updates, InvalidIndices(rules, init));
      if AllValid(rules, updates[|updates| - 1]) {
        ByIndexStepValid(rules, updates);
      } else {
        ByIndexStepInvalid(rules, updates);
      }
    }
  }

  /** The step of InvalidMiddleSumByIndex when the last update respects the rules. */
  lemma ByIndexStepValid(rules: seq<string>, updates: seq<seq<string>>)
    requires |updates| > 0 && forall t :: 0 <= t < |updates| ==> |updates[t]| > 0
    requires AllValid(rules, updates[|updates| - 1])
    requires MiddleSumAt(updates, InvalidIndices(rules, updates[..|updates| - 1])) ==
             InvalidMiddleSum(rules, updates[..|updates| - 1])
    ensures MiddleSumAt(updates, InvalidIndices(rules, updates)) == InvalidMiddleSum(rules, updates)
  {
    var init := updates[..|updates| - 1];
    assert InvalidIndices(rules, updates) == InvalidIndices(rules, init);
  }

  /** The step of InvalidMiddleSumByIndex when the last update breaks a rule. */
  lemma ByIndexStepInvalid(rules: seq<string>, updates: seq<seq<string>>)
    requires |updates| > 0 && forall t :: 0 <= t < |updates| ==> |updates[t]| > 0
    requires !AllValid(rules, updates[|updates| - 1])
    requires MiddleSumAt(updates, InvalidIndices(rules, updates[..|updates| - 1])) ==
             InvalidMiddleSum(rules, updates[..|updates| - 1])
    ensures MiddleSumAt(updates, InvalidIndices(rules, updates)) == InvalidMiddleSum(rules, updates)
  {
    var last := |updates| - 1;
    var init := updates[..last];
    MiddleSumAtSnoc(updates, InvalidIndices(rules, init), last);
    assert InvalidIndices(rules, updates) == InvalidIndices(rules, init) + [last];
  }

  lemma MiddleSumAtSnoc(updates: seq<seq<string>>, indices: seq<nat>, x: nat)
    requires forall m :: 0 <= m < |indices| ==> indices[m] < |updates| && |updates[indices[m]]| > 0
    requires x < |updates| && |updates[x]| > 0
    ensures MiddleSumAt(updates, indices + [x]) == MiddleSumAt(updates, indices) + MiddleValue(updates[x])
  {
    assert (indices + [x])[..|indices|] == indices;
  }

  lemma {:induction false} MiddleSumAtPrefix(init: seq<seq<string>>, updates: seq<seq<string>>, indices: seq<nat>)
    requires |init| <= |updates| && init == updates[..|init|]
    requires forall m :: 0 <= m < |indices| ==> indices[m] < |init| && |init[indices[m]]| > 0
    ensures MiddleSumAt(init, indices) == MiddleSumAt(updates, indices)
  {
    if |indices| > 0 {
      MiddleSumAtPrefix(init, updates, indices[..|indices| - 1]);
    }
  }

  /** day5part2: the updates that break a rule are repaired in place, pass
      after pass, by moving each out-of-order page behind the first later page
      that must precede it, until a whole pass finds nothing to move; then the
      middle pages of those updates are summed. The source loops for ever when
      the rules contradict each other: `fuel` bounds the passes, and None
      means it ran out. Updates that respected the rules are left alone, and
      no update gains or loses a page. */
  method Day5Part2(inputUpdates: array<seq<string>>, inputRules: seq<string>, fuel: nat)
    returns (middleOfTruth: Option<int>)
    requires forall t :: 0 <= t < inputUpdates.Length ==> |inputUpdates[t]| > 0
    modifies inputUpdates
    ensures forall t :: 0 <= t < inputUpdates.Length ==>
              |inputUpdates[t]| == |old(inputUpdates[t])| && multiset(inputUpdates[t]) == multiset(old(inputUpdates[t]))
    ensures forall t :: 0 <= t < inputUpdates.Length && AllValid(inputRules, old(inputUpdates[t])) ==>
              inputUpdates[t] == old(inputUpdates[t])
    ensures middleOfTruth.Some? ==> forall t :: 0 <= t < inputUpdates.Length ==> AllValid(inputRules, inputUpdates[t])
    ensures middleOfTruth.Some? ==>
              middleOfTruth.value == MiddleSumAt(inputUpdates[..], InvalidIndices(inputRules, old(inputUpdates[..])))
  {
    var original := inputUpdates[..];
    var invalidUpdates := ListInvalidUpdates(inputUpdates, inputRules);
    forall t | 0 <= t < |original| && !AllValid(inputRules, original[t])
      ensures t in invalidUpdates
    {
      InvalidIndicesComplete(inputRules, original, t);
    }

    // repair passes
    var allValid := false;
    var passes := fuel;
    while !allValid
      invariant forall t :: 0 <= t < inputUpdates.Length ==>
                  |inputUpdates[t]| == |original[t]| && multiset(inputUpdates[t]) == multiset(original[t])
      invariant forall t :: 0 <= t < inputUpdates.Length && AllValid(inputRules, original[t]) ==>
                  inputUpdates[t] == original[t]
      invariant allValid ==> forall t :: 0 <= t < inputUpdates.Length ==> AllValid(inputRules, inputUpdates[t])
      decreases passes
    {
      if passes == 0 {
        return None;
      }
      passes := passes - 1;
      allValid := RepairPass(inputUpdates, inputRules, invalidUpdates, original);
    }

    // sum of the middle pages of the repaired updates
    var sum := SumMiddlePages(inputUpdates, invalidUpdates);
    return Some(sum);
  }

  /** The first loop of day5part2: the indices of the updates that break a
      rule, in increasing order. */
  method ListInvalidUpdates(inputUpdates: array<seq<string>>, inputRules: seq<string>)
    returns (invalidUpdates: seq<nat>)
    ensures invalidUpdates == InvalidIndices(inputRules, inputUpdates[..])
  {
    invalidUpdates := [];
    var j := 0;
    while j < inputUpdates.Length
      invariant 0 <= j <= inputUpdates.Length
      invariant invalidUpdates == InvalidIndices(inputRules, inputUpdates[..j])
    {
      var allValid := CheckUpdate(inputRules, inputUpdates[j]);
      assert inputUpdates[..j + 1][..j] == inputUpdates[..j];
      if !allValid {
        invalidUpdates := invalidUpdates + [j];
      }
      j := j + 1;
    }
    assert inputUpdates[..j] == inputUpdates[..];
  }

  /** The last loop of day5part2: the middle pages of the listed updates,
      summed. */
  method SumMiddlePages(inputUpdates: array<seq<string>>, invalidUpdates: seq<nat>) returns (middleOfTruth: int)
    requires forall m :: 0 <= m < |invalidUpdates| ==>
               invalidUpdates[m] < inputUpdates.Length && |inputUpdates[invalidUpdates[m]]| > 0
    ensures middleOfTruth == MiddleSumAt(inputUpdates[..], invalidUpdates)
  {
    middleOfTruth := 0;
    var i := 0;
    while i < |invalidUpdates|
      invariant 0 <= i <= |invalidUpdates|
      invariant middleOfTruth == MiddleSumAt(inputUpdates[..], invalidUpdates[..i])
    {
      assert invalidUpdates[..i + 1][..i] == invalidUpdates[..i];
      var update := inputUpdates[invalidUpdates[i]];
      var middlePage := update[GetMiddlePage(update)];
      middleOfTruth := middleOfTruth + AtoiOrZero(middlePage);
      i := i + 1;
    }
    assert invalidUpdates[..i] == invalidUpdates;
  }

  /** One pass of the repair loop of day5part2 over the listed updates: each
      out-of-order page is moved with moveOrder and the update is written
      back. The result is true when nothing had to move, in which case every
      listed update already respected the rules and nothing changed. */
  method RepairPass(inputUpdates: array<seq<string>>, inputRules: seq<string>,
                    invalidUpdates: seq<nat>, original: seq<seq<string>>)
    returns (allValid: bool)
    requires |original| == inputUpdates.Length
    requires forall m :: 0 <= m < |invalidUpdates| ==>
               invalidUpdates[m] < inputUpdates.Length && !AllValid(inputRules, original[invalidUpdates[m]])
    requires forall t :: 0 <= t < |original| && !AllValid(inputRules, original[t]) ==> t in invalidUpdates
    requires forall t :: 0 <= t < inputUpdates.Length ==>
               |inputUpdates[t]| == |original[t]| && multiset(inputUpdates[t]) == multiset(original[t])
    requires forall t :: 0 <= t < inputUpdates.Length && AllValid(inputRules, original[t]) ==>
               inputUpdates[t] == original[t]
    modifies inputUpdates
    ensures forall t :: 0 <= t < inputUpdates.Length ==>
              |inputUpdates[t]| == |original[t]| && multiset(inputUpdates[t]) == multiset(original[t])
    ensures forall t :: 0 <= t < inputUpdates.Length && AllValid(inputRules, original[t]) ==>
              inputUpdates[t] == original[t]
    ensures allValid ==> inputUpdates[..] == old(inputUpdates[..])
    ensures allValid ==> forall t :: 0 <= t < inputUpdates.Length ==> AllValid(inputRules, inputUpdates[t])
  {
    allValid := true;
    var i := 0;
    while i < |invalidUpdates|
      invariant 0 <= i <= |invalidUpdates|
      invariant forall t :: 0 <= t < inputUpdates.Length ==>
                  |inputUpdates[t]| == |original[t]| && multiset(inputUpdates[t]) == multiset(original[t])
      invariant forall t :: 0 <= t < inputUpdates.Length && AllValid(inputRules, original[t]) ==>
                  inputUpdates[t] == original[t]
      invariant allValid ==> inputUpdates[..] == old(inputUpdates[..])
      invariant allValid ==> forall m :: 0 <= m < i ==> AllValid(inputRules, old(inputUpdates[invalidUpdates[m]]))
    {
      var idx := invalidUpdates[i];
      ghost var before := inputUpdates[..];
      var clean := RepairUpdate(inputUpdates, inputRules, idx);
      if !clean {
        allValid := false;
      } else {
        assert inputUpdates[..] == before;
      }
      i := i + 1;
    }
  }

  /** The inner loop of the repair pass for one listed update: each page that
      breaks a rule is moved with moveOrder and the update is written back.
      Only that update changes, it keeps its pages, and the result is true
      when no page had to move, in which case the update already respected
      every rule. */
  method RepairUpdate(inputUpdates: array<seq<string>>, inputRules: seq<string>, idx: nat)
    returns (clean: bool)
    requires idx < inputUpdates.Length
    modifies inputUpdates
    ensures forall t :: 0 <= t < inputUpdates.Length && t != idx ==> inputUpdates[t] == old(inputUpdates[t])
    ensures |inputUpdates[idx]| == |old(inputUpdates[idx])|
    ensures multiset(inputUpdates[idx]) == multiset(old(inputUpdates[idx]))
    ensures clean ==> inputUpdates[..] == old(inputUpdates[..]) && AllValid(inputRules, old(inputUpdates[idx]))
  {
    clean := true;
    var update := inputUpdates[idx];
    var j := 0;
    while j < |update|
      invariant 0 <= j <= |update|
      invariant inputUpdates[idx] == update
      invariant |update| == |old(inputUpdates[idx])| && multiset(update) == multiset(old(inputUpdates[idx]))
      invariant forall t :: 0 <= t < inputUpdates.Length && t != idx ==> inputUpdates[t] == old(inputUpdates[t])
      invariant clean ==> inputUpdates[..] == old(inputUpdates[..])
      invariant clean ==> forall k :: 0 <= k < j ==> ValidateOrder(inputRules, k, update)
    {
      if !ValidateOrder(inputRules, j, update) {
        clean := false;
        update := MoveOrder(inputRules, j, update);
        inputUpdates[idx] := update;
      }
      j := j + 1;
    }
  }

  /** The first index of an empty row, or the number of rows. */
  function BlankIndex(rows: seq<string>): (b: nat)
    ensures b <= |rows|
    ensures forall t :: 0 <= t < b ==> rows[t] != ""
    ensures b < |rows| ==> rows[b] == ""
  {
    if |rows| == 0 || rows[0] == "" then 0 else 1 + BlankIndex(rows[1..])
  }

  /** getPageOrderRules: the rows before the first empty row. */
  method GetPageOrderRules(inputMemory: string) returns (pageOrderRulesList: seq<string>)
    ensures pageOrderRulesList == RulesOf(inputMemory)
  {
    var inputRows := Split(inputMemory, "\n");
    pageOrderRulesList := [];
    var t := 0;
    while t < |inputRows|
      invariant 0 <= t <= BlankIndex(inputRows)
      invariant pageOrderRulesList == inputRows[..t]
    {
      if inputRows[t] == "" {
        break;
      }
      pageOrderRulesList := pageOrderRulesList + [inputRows[t]];
      t := t + 1;
    }
  }

  /** The rules of an input: its rows before the first empty row. */
  function RulesOf(inputMemory: string): seq<string>
  {
    var rows := Split(inputMemory, "\n");
    rows[..BlankIndex(rows)]
  }

  /** The updates of an input: every row after the first empty row, split on
      commas. */
  function UpdatesOf(inputMemory: string): (updates: seq<seq<string>>)
    ensures forall t :: 0 <= t < |updates| ==> |updates[t]| > 0
  {
    var rows := Split(inputMemory, "\n");
    var b := BlankIndex(rows);
    if b == |rows| then []
    else
      var updates := seq(|rows| - b - 1, t requires 0 <= t < |rows| - b - 1 => Split(rows[b + 1 + t], ","));
      assert forall t :: 0 <= t < |updates| ==> updates[t] == Split(rows[b + 1 + t], ",");
      updates
  }

  /** `repaired` is `updates` with the pages of the ones that break a rule
      reordered until they respect every rule. */
  predicate Repaired(rules: seq<string>, updates: seq<seq<string>>, repaired: seq<seq<string>>)
  {
    |repaired| == |updates| &&
    forall t :: 0 <= t < |updates| ==>
      |repaired[t]| == |updates[t]| && multiset(repaired[t]) == multiset(updates[t]) &&
      AllValid(rules, repaired[t]) && (AllValid(rules, updates[t]) ==> repaired[t] == updates[t])
  }

  /** getUpdates: every row after the first empty row, split on commas; no
      rows at all when there is no empty row. Each update has at least one
      page. */
  method GetUpdates(inputMemory: string) returns (updateList: seq<seq<string>>)
    ensures updateList == UpdatesOf(inputMemory)
    ensures forall t :: 0 <= t < |updateList| ==> |updateList[t]| > 0
  {
    var inputRows := Split(inputMemory, "\n");
    var b := BlankIndex(inputRows);
    updateList := [];
    var seenEmptyLine := false;
    var t := 0;
    while t < |inputRows|
      invariant 0 <= t <= |inputRows|
      invariant seenEmptyLine <==> b < t
      invariant !seenEmptyLine ==> updateList == []
      invariant seenEmptyLine ==> |updateList| == t - b - 1
                                  && forall m :: 0 <= m < |updateList| ==> updateList[m] == Split(inputRows[b + 1 + m], ",")
    {
      if !seenEmptyLine {
        if inputRows[t] == "" {
          seenEmptyLine := true;
        }
      } else {
        var update := Split(inputRows[t], ",");
        updateList := updateList + [update];
      }
      t := t + 1;
    }
    if b < |inputRows| {
      assert |updateList| == |UpdatesOf(inputMemory)|;
      forall m | 0 <= m < |updateList|
        ensures updateList[m] == UpdatesOf(inputMemory)[m]
      {
      }
    }
  }

  /** Day5: the rules and updates read from the input, part 1 on the updates
      as read, then part 2 on them in place. Part 2's sum is that of the
      middle pages, after repair, of the updates that broke a rule. */
  method Day5(inputMemory: string, fuel: nat) returns (part1: int, part2: Option<int>)
    ensures part1 == ValidMiddleSum(RulesOf(inputMemory), UpdatesOf(inputMemory))
    ensures part2.Some? ==>
              exists repaired :: Repaired(RulesOf(inputMemory), UpdatesOf(inputMemory), repaired) &&
                part2.value == MiddleSumAt(repaired, InvalidIndices(RulesOf(inputMemory), UpdatesOf(inputMemory)))
  {
    var inputRules := GetPageOrderRules(inputMemory);
    var inputUpdates := GetUpdates(inputMemory);
    part1 := Day5Part1(inputUpdates, inputRules);
    part2 := Part2OnSlice(inputUpdates, inputRules, fuel);
  }

  /** day5part2 on the update slice, whose entries it rewrites in place. */
  method Part2OnSlice(inputUpdates: seq<seq<string>>, inputRules: seq<string>, fuel: nat) returns (part2: Option<int>)
    requires forall t :: 0 <= t < |inputUpdates| ==> |inputUpdates[t]| > 0
    ensures part2.Some? ==>
              exists repaired :: Repaired(inputRules, inputUpdates, repaired) &&
                part2.value == MiddleSumAt(repaired, InvalidIndices(inputRules, inputUpdates))
  {
    var updates := new seq<string>[|inputUpdates|](t requires 0 <= t < |inputUpdates| => inputUpdates[t]);
    assert updates[..] == inputUpdates;
    part2 := Day5Part2(updates, inputRules, fuel);
    if part2.Some? {
      assert Repaired(inputRules, inputUpdates, updates[..]);
    }
  }
}
