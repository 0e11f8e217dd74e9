/** roll_dice and roll_dmg: the token loop with its pending sign, rolling
    each dice term from the draw stream in token order. Each loop is a left
    fold over the classified items; its results are stated against reference
    sums over item positions that do not mention the loop state. */
module Evaluator {
  import opened Results
  import opened Text
  import opened Notation
  import opened Tokenizer
  import opened DieSource

  // ---------------------------------------------------------------------
  // Reference definitions over the item list

  /** The sign in force for item i: that of a sign token just before it,
      otherwise +1 (a term resets the pending sign, a sign replaces it). */
  function SignBefore(items: seq<Item>, i: int): int
    requires 0 <= i <= |items|
  {
    if i > 0 && items[i - 1].Sign? then items[i - 1].sign else 1
  }

  /** Dice drawn by the items before the end of `items`. */
  function DrawCount(items: seq<Item>): nat
    decreases |items|
  {
    if items == [] then 0
    else
      var last := items[|items| - 1];
      DrawCount(items[..|items| - 1]) + (if last.Dice? then last.term.count else 0)
  }

  /** The pool dice item i produces: its dice drawn right after all earlier pools'. */
  function PoolAt(items: seq<Item>, i: int, draws: nat -> nat): (pool: DicePool)
    requires 0 <= i < |items| && items[i].Dice? && items[i].term.sides >= 1
  {
    var t := items[i].term;
    DicePool(items[i].notation, RollPool(t.count, t.sides, draws, DrawCount(items[..i])))
  }

  /** Positions of the dice items, in token order. */
  function DiceIndices(items: seq<Item>): (r: seq<nat>)
    ensures forall p :: 0 <= p < |r| ==> r[p] < |items| && items[r[p]].Dice?
    ensures forall p, q :: 0 <= p < q < |r| ==> r[p] < r[q]
    ensures forall i :: 0 <= i < |items| && items[i].Dice? ==> i in r
    decreases |items|
  {
    if items == [] then []
    else
      var n := |items| - 1;
      DiceIndices(items[..n]) + (if items[n].Dice? then [n] else [])
  }

  /** The signed contribution of item i to the flat modifier. */
  function FlatAt(items: seq<Item>, i: int): int
    requires 0 <= i < |items|
  {
    if items[i].Flat? then SignBefore(items, i) * items[i].value else 0
  }

  /** Sum of the signed flat integers; dice items contribute nothing. */
  function FlatPart(items: seq<Item>): int
    decreases |items|
  {
    if items == [] then 0 else FlatPart(items[..|items| - 1]) + FlatAt(items, |items| - 1)
  }

  /** The signed sum of the dice item i's pool. */
  function DiceAt(items: seq<Item>, i: int, draws: nat -> nat): int
    requires 0 <= i < |items| && (items[i].Dice? ==> items[i].term.sides >= 1)
  {
    if items[i].Dice? then SignBefore(items, i) * Sum(PoolAt(items, i, draws).rolls) else 0
  }

  /** Sum of the signed pool sums. */
  function DicePart(items: seq<Item>, draws: nat -> nat): int
    requires TermsInRange(items)
    decreases |items|
  {
    if items == [] then 0
    else DicePart(items[..|items| - 1], draws) + DiceAt(items, |items| - 1, draws)
  }

  /** Two item lists whose items contribute the same flat amounts have the
      same flat part. */
  lemma {:induction false} FlatPartPointwise(a: seq<Item>, b: seq<Item>)
    requires |a| == |b|
    requires forall i :: 0 <= i < |a| ==> FlatAt(a, i) == FlatAt(b, i)
    ensures FlatPart(a) == FlatPart(b)
    decreases |a|
  {
    if a != [] {
      var n := |a| - 1;
      forall i | 0 <= i < n
        ensures FlatAt(a[..n], i) == FlatAt(b[..n], i)
      {
        assert FlatAt(a[..n], i) == FlatAt(a, i) by {
          assert a[..n][i] == a[i];
          assert i > 0 ==> a[..n][i - 1] == a[i - 1];
        }
        assert FlatAt(b[..n], i) == FlatAt(b, i) by {
          assert b[..n][i] == b[i];
          assert i > 0 ==> b[..n][i - 1] == b[i - 1];
        }
      }
      FlatPartPointwise(a[..n], b[..n]);
    }
  }

  /** The flat modifier ignores dice terms and the sign written before them:
      swapping a dice term for another, or flipping a sign that precedes a
      dice term, leaves it unchanged. */
  lemma FlatPartIgnoresDice(items: seq<Item>, i: int, other: Item)
    requires 0 <= i < |items|
    requires (items[i].Dice? && other.Dice?)
          || (items[i].Sign? && other.Sign? && i + 1 < |items| && items[i + 1].Dice?)
    ensures FlatPart(items[i := other]) == FlatPart(items)
  {
    var changed := items[i := other];
    forall j | 0 <= j < |items|
      ensures FlatAt(changed, j) == FlatAt(items, j)
    {
      if j != i && j != i + 1 {
        assert changed[j] == items[j];
        assert j > 0 ==> changed[j - 1] == items[j - 1];
      }
    }
    FlatPartPointwise(changed, items);
  }

  /** Dropping the last item changes nothing the earlier items see. */
  lemma PrefixAgrees(items: seq<Item>, i: int, draws: nat -> nat)
    requires TermsInRange(items) && 0 <= i < |items| - 1
    ensures SignBefore(items[..|items| - 1], i) == SignBefore(items, i)
    ensures FlatAt(items[..|items| - 1], i) == FlatAt(items, i)
    ensures items[i].Dice? ==> PoolAt(items[..|items| - 1], i, draws) == PoolAt(items, i, draws)
    ensures DiceAt(items[..|items| - 1], i, draws) == DiceAt(items, i, draws)
  {
    assert items[..|items| - 1][..i] == items[..i];
  }

  /** The dice items of all items but the last are the first dice items of
      the whole list, with the same pools; a last dice item comes after them. */
  lemma PrefixIndices(items: seq<Item>, draws: nat -> nat)
    requires TermsInRange(items) && items != []
    ensures var n := |items| - 1;
      var idx := DiceIndices(items[..n]);
      && |DiceIndices(items)| == |idx| + (if items[n].Dice? then 1 else 0)
      && (forall p :: 0 <= p < |idx| ==>
            DiceIndices(items)[p] == idx[p] && PoolAt(items[..n], idx[p], draws) == PoolAt(items, idx[p], draws))
      && (items[n].Dice? ==> DiceIndices(items)[|idx|] == n)
  {
    var n := |items| - 1;
    var idx := DiceIndices(items[..n]);
    assert DiceIndices(items) == idx + (if items[n].Dice? then [n] else []);
    forall p | 0 <= p < |idx|
      ensures PoolAt(items[..n], idx[p], draws) == PoolAt(items, idx[p], draws)
    {
      assert items[..n][idx[p]] == items[idx[p]];
      PrefixAgrees(items, idx[p], draws);
    }
  }

  // ---------------------------------------------------------------------
  // roll_dice: one net modifier added to every die

  datatype DicePool = DicePool(notation: string, rolls: seq<int>)

  datatype RollResult = RollResult(
    expression: string,
    dicePools: seq<DicePool>,
    modifier: int,
    modifiedRolls: seq<seq<int>>)

  /** The loop variables of roll_dice after some tokens, with `next` the
      number of draws consumed so far. */
  datatype PerDieState = PerDieState(pools: seq<DicePool>, modifier: int, sign: int, next: nat)

  function PerDieFold(items: seq<Item>, draws: nat -> nat): (st: PerDieState)
    requires TermsInRange(items)
    ensures st.sign == SignBefore(items, |items|)
    ensures st.modifier == FlatPart(items)
    ensures st.next == DrawCount(items)
    ensures |st.pools| == |DiceIndices(items)|
    ensures forall p :: 0 <= p < |st.pools| ==> st.pools[p] == PoolAt(items, DiceIndices(items)[p], draws)
    decreases |items|
  {
    if items == [] then PerDieState([], 0, 1, 0)
    else
      var n := |items| - 1;
      var st := PerDieFold(items[..n], draws);
      PrefixIndices(items, draws);
      match items[n]
      case Sign(s) => st.(sign := s)
      case Dice(notation, t) =>
        PerDieState(st.pools + [PoolAt(items, n, draws)], st.modifier, 1, st.next + t.count)
      case Flat(v) =>
        assert SignBefore(items[..n], n) == SignBefore(items, n);
        st.(modifier := st.modifier + st.sign * v, sign := 1)
  }

  /** roll_dice: parse every token, roll the pools in order, then add the
      net flat modifier to every die of every pool. */
  function RollDice(expression: string, draws: nat -> nat): (r: Result<RollResult>)
    ensures r.Err? <==> ParseExpression(expression).Err?
    ensures r.Err? ==> r.error == ParseExpression(expression).error
    ensures r.Ok? ==> ValidRoll(ParseExpression(expression).value, draws, r.value)
    ensures r.Ok? ==> r.value.expression == RemoveSpaces(expression)
  {
    match ParseExpression(expression)
    case Err(e) => Err(e)
    case Ok(items) =>
      var st := PerDieFold(items, draws);
      Ok(RollResult(RemoveSpaces(expression), st.pools, st.modifier, AddModifier(st.pools, st.modifier)))
  }

  /** [[r + modifier for r in pool] for pool in pools]. */
  function AddModifier(pools: seq<DicePool>, m: int): (mods: seq<seq<int>>)
    ensures ModifiedBy(pools, mods, m)
  {
    seq(|pools|, p requires 0 <= p < |pools| => AddToEach(pools[p].rolls, m))
  }

  /** Each modified list is the pool's rolls with m added to every die. */
  predicate ModifiedBy(pools: seq<DicePool>, mods: seq<seq<int>>, m: int) {
    && |mods| == |pools|
    && (forall p :: 0 <= p < |pools| ==> |mods[p]| == |pools[p].rolls|)
    && (forall p, j :: 0 <= p < |pools| && 0 <= j < |pools[p].rolls| ==> mods[p][j] == pools[p].rolls[j] + m)
  }

  /** What roll_dice promises about its result, given the parsed items. */
  predicate ValidRoll(items: seq<Item>, draws: nat -> nat, res: RollResult)
    requires TermsInRange(items)
  {
    && res.modifier == FlatPart(items)
    && |res.dicePools| == |DiceIndices(items)|
    && (forall p :: 0 <= p < |res.dicePools| ==> res.dicePools[p] == PoolAt(items, DiceIndices(items)[p], draws))
    && ModifiedBy(res.dicePools, res.modifiedRolls, res.modifier)
  }

  // ---------------------------------------------------------------------
  // roll_dmg: pools summed, signed, and added to the flat part

  datatype Component = Component(notation: string, rolls: seq<int>, subtotal: int)

  datatype DmgResult = DmgResult(
    expression: string,
    components: seq<Component>,
    modifier: int,
    total: int)

  datatype DmgState = DmgState(components: seq<Component>, modifier: int, total: int, sign: int, next: nat)

  function DmgFold(items: seq<Item>, draws: nat -> nat): (st: DmgState)
    requires TermsInRange(items)
    ensures st.sign == SignBefore(items, |items|)
    ensures st.modifier == FlatPart(items)
    ensures st.total == DicePart(items, draws) + FlatPart(items)
    ensures st.next == DrawCount(items)
    ensures |st.components| == |DiceIndices(items)|
    ensures forall p :: 0 <= p < |st.components| ==>
      var pool := PoolAt(items, DiceIndices(items)[p], draws);
      st.components[p] == Component(pool.notation, pool.rolls, Sum(pool.rolls))
    decreases |items|
  {
    if items == [] then DmgState([], 0, 0, 1, 0)
    else
      var n := |items| - 1;
      var st := DmgFold(items[..n], draws);
      PrefixIndices(items, draws);
      assert SignBefore(items[..n], n) == SignBefore(items, n);
      match items[n]
      case Sign(s) => st.(sign := s)
      case Dice(notation, t) =>
        var rolls := PoolAt(items, n, draws).rolls;
        var subtotal := Sum(rolls);
        DmgState(st.components + [Component(notation, rolls, subtotal)],
                 st.modifier, st.total + st.sign * subtotal, 1, st.next + t.count)
      case Flat(v) =>
        st.(modifier := st.modifier + st.sign * v, total := st.total + st.sign * v, sign := 1)
  }

  /** roll_dmg: parse every token, sum each pool, and add every pool sum and
      every flat integer to the total with the sign before it. */
  function RollDmg(expression: string, draws: nat -> nat): (r: Result<DmgResult>)
    ensures r.Err? <==> ParseExpression(expression).Err?
    ensures r.Err? ==> r.error == ParseExpression(expression).error
    ensures r.Ok? ==> ValidDmg(ParseExpression(expression).value, draws, r.value)
    ensures r.Ok? ==> r.value.expression == RemoveSpaces(expression)
  {
    match ParseExpression(expression)
    case Err(e) => Err(e)
    case Ok(items) =>
      var st := DmgFold(items, draws);
      Ok(DmgResult(RemoveSpaces(expression), st.components, st.modifier, st.total))
  }

  /** What roll_dmg promises about its result, given the parsed items. */
  predicate ValidDmg(items: seq<Item>, draws: nat -> nat, res: DmgResult)
    requires TermsInRange(items)
  {
    && res.modifier == FlatPart(items)
    && res.total == DicePart(items, draws) + FlatPart(items)
    && |res.components| == |DiceIndices(items)|
    && forall p :: 0 <= p < |res.components| ==>
         var pool := PoolAt(items, DiceIndices(items)[p], draws);
         res.components[p] == Component(pool.notation, pool.rolls, Sum(pool.rolls))
  }

  // ---------------------------------------------------------------------
  // Properties relating the two evaluators and the dice they roll

  /** On the same draws both commands read the same pools and the same flat
      modifier; they differ only in how the modifier is applied. */
  lemma DmgAgreesWithRoll(expression: string, draws: nat -> nat)
    ensures RollDice(expression, draws).Ok? <==> RollDmg(expression, draws).Ok?
    ensures RollDice(expression, draws).Ok? ==>
      var a := RollDice(expression, draws).value;
      var b := RollDmg(expression, draws).value;
      && a.modifier == b.modifier
      && |a.dicePools| == |b.components|
      && forall p :: 0 <= p < |a.dicePools| ==>
           a.dicePools[p].notation == b.components[p].notation
           && a.dicePools[p].rolls == b.components[p].rolls
  {
  }

  /** Every die shows a face of the die its notation names. */
  lemma RollsWithinSides(expression: string, draws: nat -> nat, p: int, j: int)
    requires RollDice(expression, draws).Ok?
    requires 0 <= p < |RollDice(expression, draws).value.dicePools|
    requires 0 <= j < |RollDice(expression, draws).value.dicePools[p].rolls|
    ensures var pool := RollDice(expression, draws).value.dicePools[p];
      1 <= pool.rolls[j] <= SidesOfNotation(pool.notation)
  {
    var items := ParseExpression(expression).value;
    var i := DiceIndices(items)[p];
    assert RollDice(expression, draws).value.dicePools[p] == PoolAt(items, i, draws);
    PoolWithinSides(items, i, draws);
  }

  lemma PoolWithinSides(items: seq<Item>, i: int, draws: nat -> nat)
    requires TermsInRange(items) && DiceTokensClean(items)
    requires 0 <= i < |items| && items[i].Dice?
    ensures var pool := PoolAt(items, i, draws);
      forall j :: 0 <= j < |pool.rolls| ==> 1 <= pool.rolls[j] <= SidesOfNotation(pool.notation)
  {
    var n := items[i].notation;
    var t := items[i].term;
    assert SidesOfNotation(n) == t.sides by {
      assert NoSpace(n) && ParseDiceOnly(n) == Ok(t);
      SidesOfParsedNotation(n);
    }
  }

  /** Each pool holds exactly as many dice as its term asks for. */
  lemma PoolSizes(expression: string, draws: nat -> nat, p: int)
    requires RollDice(expression, draws).Ok?
    requires 0 <= p < |RollDice(expression, draws).value.dicePools|
    ensures var pool := RollDice(expression, draws).value.dicePools[p];
      ParseDiceOnly(pool.notation).Ok?
      && |pool.rolls| == ParseDiceOnly(pool.notation).value.count
  {
    var items := ParseExpression(expression).value;
    assert DiceTokensClean(items);
  }

  /** An illustration of PerDieFold's and DmgFold's pending-sign clause (a
      sign token sets the sign, it does not toggle it): the items of "5--3"
      add 5 and subtract 3, so both loops end with the flat part 2, where a
      toggling reading would give 8. */
  lemma SignIsSetNotToggled(draws: nat -> nat)
    ensures var items := [Flat(5), Sign(-1), Sign(-1), Flat(3)];
      PerDieFold(items, draws).modifier == 2 && DmgFold(items, draws).total == 2
  {
    var items := [Flat(5), Sign(-1), Sign(-1), Flat(3)];
    assert items[..3] == [Flat(5), Sign(-1), Sign(-1)];
    assert items[..3][..2] == [Flat(5), Sign(-1)];
    assert items[..3][..2][..1] == [Flat(5)];
    assert [Flat(5)][..0] == [];
  }
}
