/** A single dice term such as "2d6" or "d20": the parser that validates it
    and the helper the formatter uses to read the side count back out of a
    pool's notation. */
module Notation {
  import opened Results
  import opened Text

  const MaxDiceCount := 100
  const MaxDiceSides := 1000

  datatype DiceTerm = DiceTerm(count: nat, sides: nat)

  /** t matches ^(\d*)d(\d+)$ with its 'd' at index k. */
  predicate DiceShape(t: string, k: int) {
    0 <= k < |t| - 1 && t[k] == 'd' && AllDigits(t[..k]) && AllDigits(t[k + 1..])
  }

  /** The count the term denotes: an empty count group means one die. */
  function ShapeCount(t: string, k: int): nat
    requires DiceShape(t, k)
  {
    if k == 0 then 1 else DigitsValue(t[..k])
  }

  function ShapeSides(t: string, k: int): nat
    requires DiceShape(t, k)
  {
    DigitsValue(t[k + 1..])
  }

  lemma NoDBeforeShape(t: string, k: int)
    requires DiceShape(t, k)
    ensures forall j :: 0 <= j < k ==> t[j] != 'd'
  {
    forall j | 0 <= j < k
      ensures t[j] != 'd'
    {
      assert IsDigit(t[..k][j]);
    }
  }

  /** A digit is never a 'd', so the split point of a match is unique. */
  lemma DiceShapeUnique(t: string, k1: int, k2: int)
    requires DiceShape(t, k1) && DiceShape(t, k2)
    ensures k1 == k2
  {
    NoDBeforeShape(t, k1);
    NoDBeforeShape(t, k2);
  }

  /** Index of the first 'd' at or after i, or |t|. */
  function IndexOfD(t: string, i: nat): (k: nat)
    requires i <= |t|
    ensures i <= k <= |t| && (k < |t| ==> t[k] == 'd')
    ensures forall j :: i <= j < k ==> t[j] != 'd'
    decreases |t| - i
  {
    if i == |t| || t[i] == 'd' then i else IndexOfD(t, i + 1)
  }

  lemma ShapeAtFirstD(t: string, k: int)
    requires DiceShape(t, k)
    ensures IndexOfD(t, 0) == k
  {
    NoDBeforeShape(t, k);
  }

  /** Both digit groups of the match at k are within int()'s digit limit
      (an empty count group is never converted). */
  predicate WithinDigitLimit(t: string, k: int) {
    k <= MaxIntDigits && |t| - k - 1 <= MaxIntDigits
  }

  /** The regex match, int() conversions and range checks of parse_dice_only,
      on text that is already stripped and lower-cased. */
  function ParseTerm(t: string): (r: Result<DiceTerm>)
    ensures (forall k :: !DiceShape(t, k)) ==> r == Err(InvalidDiceNotation(t))
    ensures forall k :: DiceShape(t, k) && !WithinDigitLimit(t, k) ==> r == Err(DigitLimitExceeded)
    ensures forall k :: DiceShape(t, k) && WithinDigitLimit(t, k) ==>
      && (r.Ok? <==> 1 <= ShapeCount(t, k) <= MaxDiceCount && 1 <= ShapeSides(t, k) <= MaxDiceSides)
      && (r.Ok? ==> r.value == DiceTerm(ShapeCount(t, k), ShapeSides(t, k)))
      && (!(1 <= ShapeCount(t, k) <= MaxDiceCount) ==> r == Err(DiceCountOutOfRange))
      && (1 <= ShapeCount(t, k) <= MaxDiceCount && !(1 <= ShapeSides(t, k) <= MaxDiceSides) ==>
            r == Err(DiceSidesOutOfRange))
    ensures r.Ok? ==> exists k :: DiceShape(t, k) && WithinDigitLimit(t, k)
    ensures r.Ok? ==> 1 <= r.value.count <= MaxDiceCount && 1 <= r.value.sides <= MaxDiceSides
  {
    var k := IndexOfD(t, 0);
    assert forall k' :: DiceShape(t, k') ==> k' == k by {
      forall k' | DiceShape(t, k')
        ensures k' == k
      {
        ShapeAtFirstD(t, k');
      }
    }
    if !(k < |t| - 1 && AllDigits(t[..k]) && AllDigits(t[k + 1..])) then
      Err(InvalidDiceNotation(t))
    else
      assert DiceShape(t, k);
      if !WithinDigitLimit(t, k) then Err(DigitLimitExceeded)
      else
        var count := if k == 0 then 1 else DigitsValue(t[..k]);
        var sides := DigitsValue(t[k + 1..]);
        if count < 1 || count > MaxDiceCount then Err(DiceCountOutOfRange)
        else if sides < 1 || sides > MaxDiceSides then Err(DiceSidesOutOfRange)
        else Ok(DiceTerm(count, sides))
  }

  /** parse_dice_only: the count and sides of a term such as "2d6" or "D20",
      matched against ^(\d*)d(\d+)$ after strip() and lower(). */
  function ParseDiceOnly(notation: string): (r: Result<DiceTerm>)
    ensures var t := Lower(Strip(notation));
      (forall k :: !DiceShape(t, k)) ==> r == Err(InvalidDiceNotation(t))
    ensures var t := Lower(Strip(notation));
      forall k :: DiceShape(t, k) && !WithinDigitLimit(t, k) ==> r == Err(DigitLimitExceeded)
    ensures var t := Lower(Strip(notation));
      forall k :: DiceShape(t, k) && WithinDigitLimit(t, k) ==>
        && (r.Ok? <==> 1 <= ShapeCount(t, k) <= MaxDiceCount && 1 <= ShapeSides(t, k) <= MaxDiceSides)
        && (r.Ok? ==> r.value == DiceTerm(ShapeCount(t, k), ShapeSides(t, k)))
        && (!(1 <= ShapeCount(t, k) <= MaxDiceCount) ==> r == Err(DiceCountOutOfRange))
        && (1 <= ShapeCount(t, k) <= MaxDiceCount && !(1 <= ShapeSides(t, k) <= MaxDiceSides) ==>
              r == Err(DiceSidesOutOfRange))
    ensures r.Ok? ==> exists k :: DiceShape(Lower(Strip(notation)), k)
    ensures r.Ok? ==> 1 <= r.value.count <= MaxDiceCount && 1 <= r.value.sides <= MaxDiceSides
  {
    ParseTerm(Lower(Strip(notation)))
  }

  lemma LowerOfDigitTerm(c: string, s: string)
    requires AllDigits(c) && AllDigits(s)
    ensures Lower(c + "d" + s) == c + "d" + s
  {
    var n := c + "d" + s;
    forall i | 0 <= i < |n|
      ensures Lower(n)[i] == n[i]
    {
      if i < |c| {
        assert n[i] == c[i] && IsDigit(c[i]);
      } else if i > |c| {
        assert n[i] == s[i - |c| - 1] && IsDigit(s[i - |c| - 1]);
      }
    }
  }

  /** A term already in normal form (stripped, lower-case) that matches at k
      and is in range parses to the values written in it. */
  lemma ParseNormalTerm(n: string, k: int)
    requires Lower(Strip(n)) == n && DiceShape(n, k) && WithinDigitLimit(n, k)
    requires 1 <= ShapeCount(n, k) <= MaxDiceCount && 1 <= ShapeSides(n, k) <= MaxDiceSides
    ensures ParseDiceOnly(n) == Ok(DiceTerm(ShapeCount(n, k), ShapeSides(n, k)))
  {
  }

  /** A count and a side count written as digit strings form a matching term. */
  lemma ParseDigitTerm(c: string, s: string)
    requires 0 < |c| && AllDigits(c) && 0 < |s| && AllDigits(s)
    requires |c| <= MaxIntDigits && |s| <= MaxIntDigits
    requires 1 <= DigitsValue(c) <= MaxDiceCount && 1 <= DigitsValue(s) <= MaxDiceSides
    ensures ParseDiceOnly(c + "d" + s) == Ok(DiceTerm(DigitsValue(c), DigitsValue(s)))
  {
    var n := c + "d" + s;
    var k := |c|;
    assert DiceShape(n, k) && ShapeCount(n, k) == DigitsValue(c) && ShapeSides(n, k) == DigitsValue(s) by {
      assert n[..k] == c && n[k + 1..] == s;
    }
    assert Strip(n) == n by {
      assert n[0] == c[0] && n[|n| - 1] == s[|s| - 1];
      StripClean(n);
    }
    assert Lower(n) == n by {
      LowerOfDigitTerm(c, s);
    }
    ParseNormalTerm(n, k);
  }

  /** The terms "<count>d<sides>" written in decimal parse back to their values. */
  lemma ParseRenderedTerm(count: nat, sides: nat)
    requires 1 <= count <= MaxDiceCount && 1 <= sides <= MaxDiceSides
    ensures ParseDiceOnly(NatToString(count) + "d" + NatToString(sides)) == Ok(DiceTerm(count, sides))
  {
    NatToStringRoundTrip(count);
    NatToStringRoundTrip(sides);
    Pow10Digits();
    NatToStringLength(count, 4);
    NatToStringLength(sides, 4);
    ParseDigitTerm(NatToString(count), NatToString(sides));
  }

  /** A missing count defaults to one die: "d<sides>" parses as one die. */
  lemma ParseImplicitCount(sides: nat)
    requires 1 <= sides <= MaxDiceSides
    ensures ParseDiceOnly("d" + NatToString(sides)) == Ok(DiceTerm(1, sides))
  {
    var s := NatToString(sides);
    var n := "d" + s;
    assert Lower(Strip(n)) == n by {
      StripClean(n);
      LowerOfDigitTerm([], s);
    }
    assert DiceShape(n, 0) && ShapeSides(n, 0) == sides by {
      assert n[..0] == [] && n[1..] == s;
      NatToStringRoundTrip(sides);
    }
    assert WithinDigitLimit(n, 0) by {
      Pow10Digits();
      NatToStringLength(sides, 4);
    }
    assert ParseTerm(n) == Ok(DiceTerm(1, sides));
  }

  /** 10^4, so every count and side count in range has at most four digits. */
  lemma Pow10Digits()
    ensures Pow10(4) == 10000
  {
    assert Pow10(1) == 10;
    assert Pow10(2) == 100;
    assert Pow10(3) == 1000;
  }

  /** Leftmost match of d(\d+) from index i on: the digits after it, or 0. */
  function SearchSides(t: string, i: nat): (r: nat)
    requires i <= |t|
    ensures (forall j :: i <= j < |t| ==> t[j] != 'd') ==> r == 0
    decreases |t| - i
  {
    if i + 1 >= |t| then 0
    else if t[i] == 'd' && IsDigit(t[i + 1]) then DigitsValue(t[i + 1..DigitRunEnd(t, i + 1)])
    else SearchSides(t, i + 1)
  }

  /** RollResult._get_sides: the side count written in a pool's notation, 0 if none. */
  function SidesOfNotation(notation: string): (r: nat)
    ensures !HasD(notation) ==> r == 0
  {
    SearchSides(Lower(notation), 0)
  }

  lemma {:induction false} SearchSidesSkipsDigits(t: string, i: nat, k: nat)
    requires i <= k <= |t| && AllDigits(t[..k])
    ensures SearchSides(t, i) == SearchSides(t, k)
    decreases k - i
  {
    if i < k {
      assert IsDigit(t[..k][i]);
      SearchSidesSkipsDigits(t, i + 1, k);
    }
  }

  lemma {:induction false} DigitRunToEnd(t: string, i: nat)
    requires i <= |t| && AllDigits(t[i..])
    ensures DigitRunEnd(t, i) == |t|
    decreases |t| - i
  {
    if i < |t| {
      assert IsDigit(t[i..][0]);
      assert t[i + 1..] == t[i..][1..];
      DigitRunToEnd(t, i + 1);
    }
  }

  /** On a matching term the leftmost d(\d+) is the term's own 'd'. */
  lemma SearchSidesOfShape(t: string, k: int)
    requires DiceShape(t, k)
    ensures SearchSides(t, 0) == ShapeSides(t, k)
  {
    SearchSidesSkipsDigits(t, 0, k);
    assert IsDigit(t[k + 1..][0]);
    DigitRunToEnd(t, k + 1);
    assert t[k + 1..DigitRunEnd(t, k + 1)] == t[k + 1..];
    assert SearchSides(t, k) == DigitsValue(t[k + 1..]);
  }

  /** _get_sides reads back exactly the side count parse_dice_only accepted,
      for any whitespace-free term (every token of an expression is one). */
  lemma SidesOfParsedNotation(notation: string)
    requires NoSpace(notation) && ParseDiceOnly(notation).Ok?
    ensures SidesOfNotation(notation) == ParseDiceOnly(notation).value.sides
  {
    StripClean(notation);
    var t := Lower(notation);
    var k :| DiceShape(t, k);
    SearchSidesOfShape(t, k);
  }
}
