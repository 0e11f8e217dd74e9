/** roll_character_stats: six ability scores, each the best three of four d6. */
module Stats {
  import opened DieSource

  const StatCount := 6
  const DicePerStat := 4

  predicate Sorted(s: seq<int>) {
    forall i, j :: 0 <= i < j < |s| ==> s[i] <= s[j]
  }

  /** Insert x before the first element not below it. */
  function Insert(x: int, s: seq<int>): (r: seq<int>)
    ensures |r| == |s| + 1
    decreases |s|
  {
    if s == [] || x <= s[0] then [x] + s else [s[0]] + Insert(x, s[1..])
  }

  lemma {:induction false} InsertSorted(x: int, s: seq<int>)
    requires Sorted(s)
    ensures Sorted(Insert(x, s))
    ensures Insert(x, s)[0] == x || (s != [] && Insert(x, s)[0] == s[0])
    decreases |s|
  {
    if s == [] || x <= s[0] {
      SortedCons(x, s);
    } else {
      SortedTail(s);
      InsertSorted(x, s[1..]);
      SortedCons(s[0], Insert(x, s[1..]));
    }
  }

  lemma {:induction false} InsertMultiset(x: int, s: seq<int>)
    ensures multiset(Insert(x, s)) == multiset(s) + multiset{x}
    decreases |s|
  {
    if s != [] && x > s[0] {
      InsertMultiset(x, s[1..]);
      HeadTailMultiset(s);
      HeadTailMultiset(Insert(x, s));
    }
  }

  lemma {:induction false} InsertSum(x: int, s: seq<int>)
    ensures Sum(Insert(x, s)) == Sum(s) + x
    decreases |s|
  {
    if s == [] || x <= s[0] {
      assert ([x] + s)[1..] == s;
    } else {
      InsertSum(x, s[1..]);
      assert ([s[0]] + Insert(x, s[1..]))[1..] == Insert(x, s[1..]);
    }
  }

  /** sorted(): the rolls in ascending order. */
  function SortRolls(s: seq<int>): (r: seq<int>)
    ensures Sorted(r)
    ensures multiset(r) == multiset(s)
    ensures Sum(r) == Sum(s)
    decreases |s|
  {
    if s == [] then []
    else
      var t := SortRolls(s[1..]);
      InsertSorted(s[0], t);
      InsertMultiset(s[0], t);
      InsertSum(s[0], t);
      HeadTailMultiset(s);
      Insert(s[0], t)
  }

  lemma HeadTailMultiset(s: seq<int>)
    requires s != []
    ensures multiset(s) == multiset(s[1..]) + multiset{s[0]}
  {
    assert s == [s[0]] + s[1..];
  }

  lemma SortedTail(s: seq<int>)
    requires Sorted(s) && s != []
    ensures Sorted(s[1..]) && (|s| > 1 ==> s[0] <= s[1])
  {
  }

  lemma SortedCons(h: int, t: seq<int>)
    requires Sorted(t) && (t == [] || h <= t[0])
    ensures Sorted([h] + t)
  {
    var r := [h] + t;
    forall i, j | 0 <= i < j < |r|
      ensures r[i] <= r[j]
    {
      if i > 0 {
        assert r[i] == t[i - 1] && r[j] == t[j - 1];
      } else {
        assert r[j] == t[j - 1];
        assert t[0] <= t[j - 1];
      }
    }
  }

  /** The head of an ascending list is the least of its elements. */
  lemma SortedHeadsAgree(a: seq<int>, b: seq<int>)
    requires Sorted(a) && Sorted(b) && multiset(a) == multiset(b) && a != []
    ensures b != [] && a[0] == b[0]
  {
    assert a[0] in multiset(b);
    var i :| 0 <= i < |b| && b[i] == a[0];
    assert b[0] in multiset(a);
    var j :| 0 <= j < |a| && a[j] == b[0];
  }

  lemma TailsAgree(a: seq<int>, b: seq<int>)
    requires multiset(a) == multiset(b) && a != [] && b != [] && a[0] == b[0]
    ensures multiset(a[1..]) == multiset(b[1..])
  {
    assert a == [a[0]] + a[1..];
    assert b == [b[0]] + b[1..];
    assert multiset(a) == multiset{a[0]} + multiset(a[1..]);
    assert multiset(b) == multiset{a[0]} + multiset(b[1..]);
    assert multiset(a[1..]) == multiset(a) - multiset{a[0]};
    assert multiset(b[1..]) == multiset(b) - multiset{a[0]};
  }

  /** Two ascending lists with the same elements are equal: the sort's
      result is fully determined, as Python's sorted() is. */
  lemma {:induction false} SortedUnique(a: seq<int>, b: seq<int>)
    requires Sorted(a) && Sorted(b) && multiset(a) == multiset(b)
    ensures a == b
    decreases |a|
  {
    if a == [] {
      assert |b| == |multiset(b)| == 0;
    } else {
      SortedHeadsAgree(a, b);
      TailsAgree(a, b);
      SortedUnique(a[1..], b[1..]);
      assert a == [a[0]] + a[1..] && b == [b[0]] + b[1..];
    }
  }

  /** min() of a non-empty list. */
  function Min(s: seq<int>): (m: int)
    requires s != []
    ensures m in s && forall k :: 0 <= k < |s| ==> m <= s[k]
    decreases |s|
  {
    if |s| == 1 then s[0]
    else
      var m := Min(s[1..]);
      if s[0] <= m then s[0] else m
  }

  /** sum(sorted(rolls)[1:]): the total without the lowest die. */
  function DropLowest(rolls: seq<int>): int
    requires rolls != []
  {
    var sorted := SortRolls(rolls);
    assert |sorted| == |multiset(sorted)| == |rolls|;
    Sum(sorted[1..])
  }

  /** Dropping the lowest die removes exactly the minimum from the sum. */
  lemma DropLowestIsSumMinusMin(rolls: seq<int>)
    requires rolls != []
    ensures DropLowest(rolls) == Sum(rolls) - Min(rolls)
  {
    var sorted := SortRolls(rolls);
    assert |sorted| == |multiset(sorted)| == |rolls|;
    assert sorted[0] == Min(rolls) by {
      assert sorted[0] in multiset(rolls);
      assert Min(rolls) in multiset(sorted);
    }
  }

  /** Three of four d6 faces sum to between 3 and 18. */
  lemma DropLowestBounds(rolls: seq<int>)
    requires |rolls| == DicePerStat
    requires forall k :: 0 <= k < |rolls| ==> 1 <= rolls[k] <= 6
    ensures 3 <= DropLowest(rolls) <= 18
  {
    var sorted := SortRolls(rolls);
    assert |sorted| == |multiset(sorted)| == |rolls|;
    PermutationKeepsRange(rolls, sorted, 1, 6);
    var top := sorted[1..];
    assert forall k :: 0 <= k < |top| ==> top[k] == sorted[k + 1];
    SumBounds(top, 1, 6);
  }

  lemma PermutationKeepsRange(a: seq<int>, b: seq<int>, lo: int, hi: int)
    requires multiset(a) == multiset(b)
    requires forall k :: 0 <= k < |a| ==> lo <= a[k] <= hi
    ensures forall k :: 0 <= k < |b| ==> lo <= b[k] <= hi
  {
    forall k | 0 <= k < |b|
      ensures lo <= b[k] <= hi
    {
      assert b[k] in multiset(a);
      var i :| 0 <= i < |a| && a[i] == b[k];
    }
  }

  /** One ability score: the four rolls in the order drawn, and their total. */
  datatype StatRoll = StatRoll(rolls: seq<int>, total: int)

  /** Score i takes draws 4*i .. 4*i + 3 of the stream. */
  function RollCharacterStats(draws: nat -> nat): (stats: seq<StatRoll>)
    ensures |stats| == StatCount
    ensures forall i :: 0 <= i < |stats| ==>
      && stats[i].rolls == RollPool(DicePerStat, 6, draws, DicePerStat * i)
      && stats[i].total == Sum(stats[i].rolls) - Min(stats[i].rolls)
      && 3 <= stats[i].total <= 18
  {
    seq(StatCount, i requires 0 <= i < StatCount => RollStat(draws, i))
  }

  function RollStat(draws: nat -> nat, i: nat): (s: StatRoll)
    ensures s.rolls == RollPool(DicePerStat, 6, draws, DicePerStat * i)
    ensures s.total == Sum(s.rolls) - Min(s.rolls)
    ensures 3 <= s.total <= 18
  {
    var rolls := RollPool(DicePerStat, 6, draws, DicePerStat * i);
    DropLowestIsSumMinusMin(rolls);
    DropLowestBounds(rolls);
    StatRoll(rolls, DropLowest(rolls))
  }
}
