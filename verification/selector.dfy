/** roll_with_advantage and roll_with_disadvantage: roll the same expression
    twice, on two independent draw streams, and keep the higher (lower) total. */
module Selector {
  import opened Results
  import opened Tokenizer
  import opened Evaluator
  import opened DieSource

  /** sum(sum(pool) for pool in pools). */
  function SumAll(pools: seq<seq<int>>): int
    decreases |pools|
  {
    if pools == [] then 0 else Sum(pools[0]) + SumAll(pools[1..])
  }

  /** The grand total of a per-die roll: every modified die added up. */
  function GrandTotal(r: RollResult): int {
    SumAll(r.modifiedRolls)
  }

  function RawTotal(pools: seq<DicePool>): int
    decreases |pools|
  {
    if pools == [] then 0 else Sum(pools[0].rolls) + RawTotal(pools[1..])
  }

  function DiceCount(pools: seq<DicePool>): nat
    decreases |pools|
  {
    if pools == [] then 0 else |pools[0].rolls| + DiceCount(pools[1..])
  }

  lemma ModifiedHead(pools: seq<DicePool>, mods: seq<seq<int>>, m: int)
    requires ModifiedBy(pools, mods, m) && pools != []
    ensures mods[0] == AddToEach(pools[0].rolls, m)
  {
    var a := AddToEach(pools[0].rolls, m);
    forall j | 0 <= j < |a|
      ensures mods[0][j] == a[j]
    {
    }
  }

  lemma ModifiedTail(pools: seq<DicePool>, mods: seq<seq<int>>, m: int)
    requires ModifiedBy(pools, mods, m) && pools != []
    ensures ModifiedBy(pools[1..], mods[1..], m)
  {
    forall p, j | 0 <= p < |pools| - 1 && 0 <= j < |pools[1..][p].rolls|
      ensures mods[1..][p][j] == pools[1..][p].rolls[j] + m
    {
      assert mods[1..][p] == mods[p + 1] && pools[1..][p] == pools[p + 1];
    }
  }

  lemma {:induction false} SumAllModified(pools: seq<DicePool>, mods: seq<seq<int>>, m: int)
    requires ModifiedBy(pools, mods, m)
    ensures SumAll(mods) == RawTotal(pools) + m * DiceCount(pools)
    decreases |pools|
  {
    if pools != [] {
      ModifiedHead(pools, mods, m);
      SumAddToEach(pools[0].rolls, m);
      ModifiedTail(pools, mods, m);
      SumAllModified(pools[1..], mods[1..], m);
      assert SumAll(mods) == Sum(mods[0]) + SumAll(mods[1..]);
      assert RawTotal(pools) == Sum(pools[0].rolls) + RawTotal(pools[1..]);
      assert DiceCount(pools) == |pools[0].rolls| + DiceCount(pools[1..]);
      assert m * DiceCount(pools) == m * |pools[0].rolls| + m * DiceCount(pools[1..]);
    }
  }

  /** The modifier is paid once per die: a roll's grand total is its raw
      dice sum plus the modifier times the number of dice. */
  lemma GrandTotalOfRoll(expression: string, draws: nat -> nat)
    requires RollDice(expression, draws).Ok?
    ensures var r := RollDice(expression, draws).value;
      GrandTotal(r) == RawTotal(r.dicePools) + r.modifier * DiceCount(r.dicePools)
  {
    var r := RollDice(expression, draws).value;
    SumAllModified(r.dicePools, r.modifiedRolls, r.modifier);
  }

  /** The returned tuple (roll1, roll2, chosen, chosen total). */
  datatype Selection = Selection(first: RollResult, second: RollResult, chosen: RollResult, chosenTotal: int)

  /** roll_with_advantage: the higher total; a tie keeps the first roll. */
  function RollWithAdvantage(expression: string, draws1: nat -> nat, draws2: nat -> nat): (r: Result<Selection>)
    ensures r.Err? <==> RollDice(expression, draws1).Err?
    ensures r.Err? ==> r.error == RollDice(expression, draws1).error
    ensures r.Ok? ==>
      && r.value.first == RollDice(expression, draws1).value
      && r.value.second == RollDice(expression, draws2).value
    ensures r.Ok? ==> Picks(r.value, true)
  {
    match RollDice(expression, draws1)
    case Err(e) => Err(e)
    case Ok(roll1) =>
      var roll2 := RollDice(expression, draws2).value;
      var total1 := GrandTotal(roll1);
      var total2 := GrandTotal(roll2);
      var higher := if total1 >= total2 then roll1 else roll2;
      Ok(Selection(roll1, roll2, higher, if total1 >= total2 then total1 else total2))
  }

  /** roll_with_disadvantage: the lower total; a tie keeps the first roll. */
  function RollWithDisadvantage(expression: string, draws1: nat -> nat, draws2: nat -> nat): (r: Result<Selection>)
    ensures r.Err? <==> RollDice(expression, draws1).Err?
    ensures r.Err? ==> r.error == RollDice(expression, draws1).error
    ensures r.Ok? ==>
      && r.value.first == RollDice(expression, draws1).value
      && r.value.second == RollDice(expression, draws2).value
    ensures r.Ok? ==> Picks(r.value, false)
  {
    match RollDice(expression, draws1)
    case Err(e) => Err(e)
    case Ok(roll1) =>
      var roll2 := RollDice(expression, draws2).value;
      var total1 := GrandTotal(roll1);
      var total2 := GrandTotal(roll2);
      var lower := if total1 <= total2 then roll1 else roll2;
      Ok(Selection(roll1, roll2, lower, if total1 <= total2 then total1 else total2))
  }

  /** The chosen total is the max (min) of the two grand totals, it is the
      chosen roll's own total, and the first roll wins every tie. */
  predicate Picks(s: Selection, higher: bool) {
    var t1 := GrandTotal(s.first);
    var t2 := GrandTotal(s.second);
    && (if higher then t1 <= s.chosenTotal && t2 <= s.chosenTotal
        else s.chosenTotal <= t1 && s.chosenTotal <= t2)
    && (s.chosenTotal == t1 || s.chosenTotal == t2)
    && GrandTotal(s.chosen) == s.chosenTotal
    && (t1 == t2 ==> s.chosen == s.first)
    && (s.chosen == s.first || s.chosen == s.second)
  }

  /** The expression is parsed the same way on both rolls, so the second
      roll succeeds whenever the first does. */
  lemma SecondRollSucceeds(expression: string, draws1: nat -> nat, draws2: nat -> nat)
    ensures RollDice(expression, draws1).Ok? <==> RollDice(expression, draws2).Ok?
  {
  }

  /** Swapping the two draw streams changes which roll is returned on a tie
      but never the selected total. */
  lemma SelectionSymmetric(expression: string, draws1: nat -> nat, draws2: nat -> nat)
    requires RollDice(expression, draws1).Ok?
    ensures RollWithAdvantage(expression, draws1, draws2).value.chosenTotal
         == RollWithAdvantage(expression, draws2, draws1).value.chosenTotal
    ensures RollWithDisadvantage(expression, draws1, draws2).value.chosenTotal
         == RollWithDisadvantage(expression, draws2, draws1).value.chosenTotal
  {
    SecondRollSucceeds(expression, draws1, draws2);
  }

  /** On the same pair of rolls advantage never yields less than disadvantage. */
  lemma AdvantageDominates(expression: string, draws1: nat -> nat, draws2: nat -> nat)
    requires RollDice(expression, draws1).Ok?
    ensures RollWithDisadvantage(expression, draws1, draws2).value.chosenTotal
         <= RollWithAdvantage(expression, draws1, draws2).value.chosenTotal
  {
  }
}
