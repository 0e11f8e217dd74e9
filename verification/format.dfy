/** RollResult._format_roll, RollResult.format and DmgResult.format: the
    text of a roll, with the d20 rule (a natural 20 is bold and keeps the
    modifier, a natural 1 reads "Nat1" and drops it). */
module Format {
  import opened Text
  import opened Notation
  import opened Tokenizer
  import opened Evaluator

  const Nat1 := "**Nat1**"

  /** sep.join(parts). */
  function Join(parts: seq<string>, sep: string): (r: string)
    ensures |parts| > 0 ==> |r| >= |parts[0]|
    decreases |parts|
  {
    if parts == [] then []
    else if |parts| == 1 then parts[0]
    else parts[0] + sep + Join(parts[1..], sep)
  }

  predicate StartsWith(s: string, sep: string) {
    |sep| <= |s| && s[..|sep|] == sep
  }

  /** s.split(sep) for a non-empty separator: cut at each leftmost,
      non-overlapping occurrence; an empty string gives [""]. */
  function SplitOn(s: string, sep: string): seq<string>
    requires sep != []
  {
    SplitOnFrom(s, sep, [])
  }

  function SplitOnFrom(s: string, sep: string, cur: string): (pieces: seq<string>)
    requires sep != []
    ensures |pieces| > 0
    decreases |s|
  {
    if s == [] then [cur]
    else if StartsWith(s, sep) then [cur] + SplitOnFrom(s[|sep|..], sep, [])
    else SplitOnFrom(s[1..], sep, cur + [s[0]])
  }

  /** No occurrence of sep starts inside p, even when sep follows p. */
  predicate SepFree(p: string, sep: string) {
    forall k :: 0 <= k < |p| ==> !StartsWith((p + sep)[k..], sep)
  }

  /** What follows sep does not matter to a match that starts inside p. */
  lemma SepFreeBeforeTail(p: string, sep: string, tail: string, k: int)
    requires SepFree(p, sep) && 0 <= k < |p|
    ensures !StartsWith((p + (sep + tail))[k..], sep)
  {
    var u := (p + (sep + tail))[k..];
    var v := (p + sep)[k..];
    assert !StartsWith(v, sep);
    assert |sep| <= |v| && |sep| <= |u|;
    assert u[..|sep|] == v[..|sep|] by {
      forall i | 0 <= i < |sep|
        ensures u[i] == v[i]
      {
        if k + i < |p| {
          assert u[i] == p[k + i] == v[i];
        } else {
          assert u[i] == sep[k + i - |p|] == v[i];
        }
      }
    }
  }

  /** A part that lacks the separator's first character holds no match. */
  lemma SepFreeOfMissingHead(p: string, sep: string)
    requires sep != [] && sep[0] !in p
    ensures SepFree(p, sep)
  {
    forall k | 0 <= k < |p|
      ensures !StartsWith((p + sep)[k..], sep)
    {
      assert (p + sep)[k..][0] == p[k];
    }
  }

  /** A part that lacks the separator's second character holds no match
      either, when that character differs from the first. */
  lemma SepFreeOfMissingSecond(p: string, sep: string)
    requires |sep| >= 2 && sep[1] != sep[0] && sep[1] !in p
    ensures SepFree(p, sep)
  {
    forall k | 0 <= k < |p|
      ensures !StartsWith((p + sep)[k..], sep)
    {
      var v := (p + sep)[k..];
      if k + 1 < |p| {
        assert v[1] == p[k + 1];
      } else {
        assert v[1] == sep[0];
      }
    }
  }

  /** Splitting runs over text that holds no match into the current piece. */
  lemma {:induction false} SplitOnFromSkips(p: string, rest: string, sep: string, cur: string)
    requires sep != []
    requires forall k :: 0 <= k < |p| ==> !StartsWith((p + rest)[k..], sep)
    ensures SplitOnFrom(p + rest, sep, cur) == SplitOnFrom(rest, sep, cur + p)
    decreases |p|
  {
    if p == [] {
      assert p + rest == rest && cur + p == cur;
    } else {
      assert (p + rest)[0] == p[0] && (p + rest)[1..] == p[1..] + rest;
      assert (p + rest)[0..] == p + rest;
      forall k | 0 <= k < |p[1..]|
        ensures !StartsWith((p[1..] + rest)[k..], sep)
      {
        assert (p[1..] + rest)[k..] == (p + rest)[k + 1..];
      }
      SplitOnFromSkips(p[1..], rest, sep, cur + [p[0]]);
      assert cur + [p[0]] + p[1..] == cur + p;
    }
  }

  /** Joining on a separator no part holds and splitting on it again gives
      back the parts. */
  lemma {:induction false} SplitOfJoin(parts: seq<string>, sep: string)
    requires |parts| > 0 && sep != []
    requires forall i :: 0 <= i < |parts| ==> SepFree(parts[i], sep)
    ensures SplitOn(Join(parts, sep), sep) == parts
    decreases |parts|
  {
    var p := parts[0];
    if |parts| == 1 {
      forall k | 0 <= k < |p|
        ensures !StartsWith((p + [])[k..], sep)
      {
        assert (p + [])[k..] == p[k..];
        assert !StartsWith((p + sep)[k..], sep);
      }
      SplitOnFromSkips(p, [], sep, []);
      assert p + [] == p && [] + p == p;
    } else {
      var tail := Join(parts[1..], sep);
      assert Join(parts, sep) == p + (sep + tail);
      forall k | 0 <= k < |p|
        ensures !StartsWith((p + (sep + tail))[k..], sep)
      {
        SepFreeBeforeTail(p, sep, tail, k);
      }
      SplitOnFromSkips(p, sep + tail, sep, []);
      assert [] + p == p;
      assert StartsWith(sep + tail, sep) && (sep + tail)[|sep|..] == tail;
      assert SplitOnFrom(sep + tail, sep, p) == [p] + SplitOnFrom(tail, sep, []);
      SplitOfJoin(parts[1..], sep);
      assert parts == [p] + parts[1..];
    }
  }

  /** A character of a joined string comes from a part or from the separator. */
  lemma {:induction false} JoinChars(parts: seq<string>, sep: string, c: char)
    requires c !in sep && forall i :: 0 <= i < |parts| ==> c !in parts[i]
    ensures c !in Join(parts, sep)
    decreases |parts|
  {
    if |parts| > 1 {
      JoinChars(parts[1..], sep, c);
    }
  }

  // ---------------------------------------------------------------------
  // One die

  /** _format_roll: the modified value, bold on a natural 20 and replaced by
      Nat1 on a natural 1, when the die has 20 sides. */
  function FormatRoll(base: int, modified: int, sides: int): (text: string)
    ensures text == Nat1 <==> sides == 20 && base == 1
    ensures '*' in text <==> sides == 20 && (base == 20 || base == 1)
  {
    IntToStringLacks(modified, '*');
    assert "**"[0] == '*' && Nat1[0] == '*';
    if sides == 20 && base == 20 then
      var n := IntToString(modified);
      assert ("**" + n + "**")[|n| + 2] == '*' && ("**" + n + "**")[2..|n| + 2] == n;
      assert Nat1[2] == 'N';
      "**" + n + "**"
    else if sides == 20 && base == 1 then Nat1
    else IntToString(modified)
  }

  /** How format() shows a die's natural value. */
  function BaseCell(roll: int, sides: int): string {
    if sides == 20 && roll == 20 then "**20**"
    else if sides == 20 && roll == 1 then Nat1
    else IntToString(roll)
  }

  /** The "(roll+modifier)" cell of the modified path; f"{mod_sign}{modifier}"
      is the modifier with a '+' before it when positive. */
  function CalcCell(roll: int, sides: int, modifier: int): string {
    if sides == 20 && roll == 20 then "(**20**" + SignedText(modifier) + ")"
    else if sides == 20 && roll == 1 then "(" + Nat1 + ")"
    else "(" + IntToString(roll) + SignedText(modifier) + ")"
  }

  /** The result cell of the modified path. */
  function ResultCell(roll: int, modified: int, sides: int): string {
    if sides == 20 && roll == 20 then "**" + IntToString(modified) + "**"
    else if sides == 20 && roll == 1 then Nat1
    else IntToString(modified)
  }

  // ---------------------------------------------------------------------
  // RollResult.format

  /** modified_rolls lines up with dice_pools, as roll_dice builds it. */
  predicate WellShaped(r: RollResult) {
    && |r.modifiedRolls| == |r.dicePools|
    && forall p :: 0 <= p < |r.dicePools| ==> |r.modifiedRolls[p]| == |r.dicePools[p].rolls|
  }

  /** One output line per pool: the plain path has one column of cells, the
      modified path three. */
  datatype PoolLine =
    | PlainLine(header: string, cells: seq<string>)
    | ModifiedLine(header: string, bases: seq<string>, sums: seq<string>, results: seq<string>)

  function LayoutPool(r: RollResult, p: int): PoolLine
    requires WellShaped(r) && 0 <= p < |r.dicePools|
  {
    var pool := r.dicePools[p];
    var sides := SidesOfNotation(pool.notation);
    var rolls := pool.rolls;
    if r.modifier == 0 then
      PlainLine(Upper(pool.notation), seq(|rolls|, j requires 0 <= j < |rolls| => BaseCell(rolls[j], sides)))
    else
      var modified := r.modifiedRolls[p];
      ModifiedLine(
        Upper(pool.notation),
        seq(|rolls|, j requires 0 <= j < |rolls| => BaseCell(rolls[j], sides)),
        seq(|rolls|, j requires 0 <= j < |rolls| => CalcCell(rolls[j], sides, r.modifier)),
        seq(|rolls|, j requires 0 <= j < |rolls| => ResultCell(rolls[j], modified[j], sides)))
  }

  function Layout(r: RollResult): (lines: seq<PoolLine>)
    requires WellShaped(r)
    ensures |lines| == |r.dicePools|
  {
    seq(|r.dicePools|, p requires 0 <= p < |r.dicePools| => LayoutPool(r, p))
  }

  function RenderLine(l: PoolLine): string {
    match l
    case PlainLine(h, cells) => h + " Result - (" + Join(cells, ", ") + ")"
    case ModifiedLine(h, bases, sums, results) =>
      h + " Result - (" + Join(bases, ", ") + ") = " + Join(sums, " ") + " = (" + Join(results, ", ") + ")"
  }

  /** RollResult.format: the pool lines joined by newlines. */
  function FormatRollResult(r: RollResult): (text: string)
    requires WellShaped(r)
    ensures text == [] <==> r.dicePools == []
  {
    var lines := Layout(r);
    Join(seq(|lines|, p requires 0 <= p < |lines| => RenderLine(lines[p])), "\n")
  }

  /** The d20 rule for die j of pool p, in both paths: a natural 1 on a d20
      shows Nat1 with no modifier; a natural 20 is bold and, when there is a
      modifier, keeps it; any other die shows its plain numbers. */
  lemma D20Rule(r: RollResult, p: int, j: int)
    requires WellShaped(r) && 0 <= p < |r.dicePools| && 0 <= j < |r.dicePools[p].rolls|
    ensures var roll := r.dicePools[p].rolls[j];
      var d20 := SidesOfNotation(r.dicePools[p].notation) == 20;
      var l := Layout(r)[p];
      && (r.modifier == 0 <==> l.PlainLine?)
      && (l.PlainLine? ==>
            l.cells[j] == (if d20 && roll == 20 then "**20**" else if d20 && roll == 1 then Nat1
                           else IntToString(roll)))
      && (l.ModifiedLine? && d20 && roll == 1 ==>
            l.bases[j] == Nat1 && l.sums[j] == "(" + Nat1 + ")" && l.results[j] == Nat1)
      && (l.ModifiedLine? && d20 && roll == 20 ==>
            && l.bases[j] == "**20**"
            && l.sums[j] == "(**20**" + SignedText(r.modifier) + ")"
            && l.results[j] == "**" + IntToString(r.modifiedRolls[p][j]) + "**")
      && (l.ModifiedLine? && !(d20 && (roll == 1 || roll == 20)) ==>
            && l.bases[j] == IntToString(roll)
            && l.sums[j] == "(" + IntToString(roll) + SignedText(r.modifier) + ")"
            && l.results[j] == IntToString(r.modifiedRolls[p][j]))
  {
  }

  /** The result column format() writes inline is what _format_roll gives;
      on the plain path it is _format_roll with no modifier applied. */
  lemma ResultColumnIsFormatRoll(r: RollResult, p: int, j: int)
    requires WellShaped(r) && 0 <= p < |r.dicePools| && 0 <= j < |r.dicePools[p].rolls|
    ensures var roll := r.dicePools[p].rolls[j];
      var sides := SidesOfNotation(r.dicePools[p].notation);
      var l := Layout(r)[p];
      && (l.PlainLine? ==> l.cells[j] == FormatRoll(roll, roll, sides))
      && (l.ModifiedLine? ==> l.results[j] == FormatRoll(roll, r.modifiedRolls[p][j], sides))
  {
    assert IntToString(20) == "20";
  }

  /** The characters a cell can hold never include a newline. */
  lemma CellsHaveNoNewline(roll: int, modified: int, sides: int, modifier: int)
    ensures '\n' !in BaseCell(roll, sides)
    ensures '\n' !in CalcCell(roll, sides, modifier)
    ensures '\n' !in ResultCell(roll, modified, sides)
  {
    BaseCellLacks(roll, sides, '\n');
    CalcCellLacks(roll, sides, modifier, '\n');
    ResultCellLacks(roll, modified, sides, '\n');
  }

  /** A character no cell can hold: not a digit, sign, bracket, star or
      letter of Nat1. */
  predicate CellFree(c: char) {
    !IsDigit(c) && c != '+' && c != '-' && c != '*' && c != '(' && c != ')'
    && c != 'N' && c != 'a' && c != 't'
  }

  lemma BaseCellLacks(roll: int, sides: int, c: char)
    requires CellFree(c)
    ensures c !in BaseCell(roll, sides)
  {
    NumberLacks(roll, c);
  }

  lemma CalcCellLacks(roll: int, sides: int, modifier: int, c: char)
    requires CellFree(c)
    ensures c !in CalcCell(roll, sides, modifier)
  {
    NumberLacks(modifier, c);
    var m := SignedText(modifier);
    if sides == 20 && roll == 20 {
      InAppend("(**20**", m, c);
      InAppend("(**20**" + m, ")", c);
    } else if sides == 20 && roll == 1 {
      InAppend("(", Nat1, c);
      InAppend("(" + Nat1, ")", c);
    } else {
      var n := IntToString(roll);
      NumberLacks(roll, c);
      InAppend("(", n, c);
      InAppend("(" + n, m, c);
      InAppend("(" + n + m, ")", c);
    }
  }

  lemma ResultCellLacks(roll: int, modified: int, sides: int, c: char)
    requires CellFree(c)
    ensures c !in ResultCell(roll, modified, sides)
  {
    NumberLacks(modified, c);
  }

  lemma UpperKeepsNewlineOut(s: string)
    requires '\n' !in s
    ensures '\n' !in Upper(s)
  {
    forall i | 0 <= i < |s|
      ensures Upper(s)[i] != '\n'
    {
      assert s[i] != '\n';
    }
  }

  /** A line holds a newline only if its header or one of its cells does. */
  lemma RenderLineLacks(l: PoolLine, c: char)
    requires c !in l.header && c !in ", " && c !in " "
    requires l.PlainLine? ==> forall j :: 0 <= j < |l.cells| ==> c !in l.cells[j]
    requires l.ModifiedLine? ==>
      && (forall j :: 0 <= j < |l.bases| ==> c !in l.bases[j])
      && (forall j :: 0 <= j < |l.sums| ==> c !in l.sums[j])
      && (forall j :: 0 <= j < |l.results| ==> c !in l.results[j])
    requires c !in " Result - (" && c !in ") = " && c !in " = (" && c !in ")"
    ensures c !in RenderLine(l)
  {
    match l
    case PlainLine(h, cells) =>
      JoinChars(cells, ", ", c);
    case ModifiedLine(h, bases, sums, results) =>
      JoinChars(bases, ", ", c);
      JoinChars(sums, " ", c);
      JoinChars(results, ", ", c);
  }

  lemma LayoutCellsLackNewline(r: RollResult, p: int)
    requires WellShaped(r) && 0 <= p < |r.dicePools|
    ensures var l := Layout(r)[p];
      && (l.PlainLine? ==> forall j :: 0 <= j < |l.cells| ==> '\n' !in l.cells[j])
      && (l.ModifiedLine? ==>
            && (forall j :: 0 <= j < |l.bases| ==> '\n' !in l.bases[j])
            && (forall j :: 0 <= j < |l.sums| ==> '\n' !in l.sums[j])
            && (forall j :: 0 <= j < |l.results| ==> '\n' !in l.results[j]))
  {
    var pool := r.dicePools[p];
    var sides := SidesOfNotation(pool.notation);
    forall j | 0 <= j < |pool.rolls|
      ensures '\n' !in BaseCell(pool.rolls[j], sides)
      ensures '\n' !in CalcCell(pool.rolls[j], sides, r.modifier)
      ensures '\n' !in ResultCell(pool.rolls[j], r.modifiedRolls[p][j], sides)
    {
      CellsHaveNoNewline(pool.rolls[j], r.modifiedRolls[p][j], sides, r.modifier);
    }
  }

  lemma LineHasNoNewline(r: RollResult, p: int)
    requires WellShaped(r) && 0 <= p < |r.dicePools|
    requires '\n' !in r.dicePools[p].notation
    ensures '\n' !in RenderLine(Layout(r)[p])
  {
    UpperKeepsNewlineOut(r.dicePools[p].notation);
    LayoutCellsLackNewline(r, p);
    RenderLineLacks(Layout(r)[p], '\n');
  }

  /** Read back line by line, the text of a roll is one line per pool, in
      pool order (pool notations never hold a newline: they are tokens);
      with no pools the text is empty. */
  lemma FormatLinesInOrder(r: RollResult)
    requires WellShaped(r)
    requires forall p :: 0 <= p < |r.dicePools| ==> '\n' !in r.dicePools[p].notation
    ensures r.dicePools == [] ==> FormatRollResult(r) == []
    ensures r.dicePools != [] ==>
      var lines := SplitOn(FormatRollResult(r), "\n");
      |lines| == |r.dicePools|
      && forall p :: 0 <= p < |lines| ==> lines[p] == RenderLine(Layout(r)[p])
  {
    if r.dicePools != [] {
      var ls := Layout(r);
      var texts := seq(|ls|, p requires 0 <= p < |ls| => RenderLine(ls[p]));
      forall p | 0 <= p < |texts|
        ensures SepFree(texts[p], "\n")
      {
        LineHasNoNewline(r, p);
        SepFreeOfMissingHead(texts[p], "\n");
      }
      SplitOfJoin(texts, "\n");
    }
  }

  /** Every roll roll_dice returns can be formatted: with no pools its text
      is empty, otherwise it has one line per pool, each the rendering of
      that pool, in order. */
  lemma RolledTextOneLinePerPool(expression: string, draws: nat -> nat)
    requires RollDice(expression, draws).Ok?
    ensures var r := RollDice(expression, draws).value;
      && WellShaped(r)
      && (r.dicePools == [] ==> FormatRollResult(r) == [])
      && (r.dicePools != [] ==>
           && |SplitOn(FormatRollResult(r), "\n")| == |r.dicePools|
           && forall p :: 0 <= p < |r.dicePools| ==>
                SplitOn(FormatRollResult(r), "\n")[p] == RenderLine(Layout(r)[p]))
  {
    var r := RollDice(expression, draws).value;
    var items := ParseExpression(expression).value;
    forall p | 0 <= p < |r.dicePools|
      ensures '\n' !in r.dicePools[p].notation
    {
      PoolNotationHasNoNewline(items, DiceIndices(items)[p], draws);
    }
    FormatLinesInOrder(r);
  }

  lemma PoolNotationHasNoNewline(items: seq<Item>, i: int, draws: nat -> nat)
    requires TermsInRange(items) && DiceTokensClean(items)
    requires 0 <= i < |items| && items[i].Dice?
    ensures '\n' !in PoolAt(items, i, draws).notation
  {
    var n := items[i].notation;
    assert forall k :: 0 <= k < |n| ==> n[k] != '\n';
  }

  // ---------------------------------------------------------------------
  // DmgResult.format

  /** "(r1, r2, ...)" per component, then "[+m]" when the modifier is not 0,
      joined by " + ", then " = total". */
  function DmgParts(d: DmgResult): seq<string> {
    seq(|d.components|, p requires 0 <= p < |d.components| => ComponentText(d.components[p].rolls))
    + (if d.modifier != 0 then ["[" + SignedText(d.modifier) + "]"] else [])
  }

  /** "(r1, r2, ...)": one pool's dice, in the order rolled. */
  function ComponentText(rolls: seq<int>): string {
    "(" + Join(RollCells(rolls), ", ") + ")"
  }

  /** DmgResult.format: the parts joined by " + ", then " = total". */
  function FormatDmg(d: DmgResult): string {
    Join(DmgParts(d), " + ") + " = " + IntToString(d.total)
  }

  /** str() of an integer holds only digits and a minus sign. */
  lemma IntToStringLacks(n: int, c: char)
    requires !IsDigit(c) && c != '-'
    ensures c !in IntToString(n)
  {
    var s := IntToString(n);
    assert forall i :: 0 <= i < |s| ==> s[i] != c;
  }

  /** Numbers, as str() writes them, hold only digits and signs. */
  lemma NumberLacks(n: int, c: char)
    requires !IsDigit(c) && c != '-' && c != '+'
    ensures c !in IntToString(n) && c !in SignedText(n)
  {
    IntToStringLacks(n, c);
    var s := SignedText(n);
    assert forall i :: 0 <= i < |s| ==> s[i] != c;
  }

  /** The cells of a component: str() of each roll. */
  function RollCells(rolls: seq<int>): (cells: seq<string>)
    ensures |cells| == |rolls|
  {
    seq(|rolls|, j requires 0 <= j < |rolls| => IntToString(rolls[j]))
  }

  /** The characters of a component: its brackets, its separators and the
      characters of its numbers. */
  lemma ComponentLacks(rolls: seq<int>, c: char)
    requires !IsDigit(c) && c != '-' && c != '(' && c != ')' && c != ',' && c != ' '
    ensures c !in ComponentText(rolls)
  {
    var cells := RollCells(rolls);
    forall j | 0 <= j < |cells|
      ensures c !in cells[j]
    {
      IntToStringLacks(rolls[j], c);
    }
    JoinChars(cells, ", ", c);
    var inner := Join(cells, ", ");
    InAppend("(", inner, c);
    InAppend("(" + inner, ")", c);
  }

  /** A component reads back as its rolls: strip the brackets and split on
      ", " to get str() of each roll, in the order rolled. */
  lemma ComponentInOrder(rolls: seq<int>)
    ensures var t := ComponentText(rolls);
      && |t| >= 2 && t[0] == '(' && t[|t| - 1] == ')'
      && (rolls == [] ==> t[1..|t| - 1] == [])
      && (rolls != [] ==> SplitOn(t[1..|t| - 1], ", ") == RollCells(rolls))
  {
    var cells := RollCells(rolls);
    var inner := Join(cells, ", ");
    assert ComponentText(rolls) == "(" + inner + ")";
    assert ("(" + inner + ")")[1..|inner| + 1] == inner;
    if rolls != [] {
      forall j | 0 <= j < |cells|
        ensures SepFree(cells[j], ", ")
      {
        IntToStringLacks(rolls[j], ',');
        SepFreeOfMissingHead(cells[j], ", ");
      }
      SplitOfJoin(cells, ", ");
    }
  }

  /** Every part of the damage text holds no " + " of its own: components
      have no '+', and the modifier part has no space. */
  lemma DmgPartsSepFree(d: DmgResult)
    ensures forall p :: 0 <= p < |DmgParts(d)| ==> SepFree(DmgParts(d)[p], " + ")
  {
    var parts := DmgParts(d);
    forall p | 0 <= p < |parts|
      ensures SepFree(parts[p], " + ")
    {
      if p < |d.components| {
        ComponentLacks(d.components[p].rolls, '+');
        SepFreeOfMissingSecond(parts[p], " + ");
      } else {
        var m := SignedText(d.modifier);
        assert ' ' !in m by {
          assert forall i :: 0 <= i < |m| ==> m[i] != ' ';
        }
        InAppend("[", m, ' ');
        InAppend("[" + m, "]", ' ');
        SepFreeOfMissingHead(parts[p], " + ");
      }
    }
  }

  /** The damage text in order: it ends in " = " and the total; before that,
      split on " + ", come the components' rolls in pool order, then the
      modifier in brackets when it is not 0 (nothing at all when there are
      neither). */
  lemma FormatDmgInOrder(d: DmgResult)
    ensures var text := FormatDmg(d);
      var tail := " = " + IntToString(d.total);
      && |tail| <= |text| && text[|text| - |tail|..] == tail
      && var body := text[..|text| - |tail|];
      && (d.components == [] && d.modifier == 0 ==> body == [])
      && (d.components != [] || d.modifier != 0 ==>
           var pieces := SplitOn(body, " + ");
           && |pieces| == |d.components| + (if d.modifier != 0 then 1 else 0)
           && (forall p :: 0 <= p < |d.components| ==> pieces[p] == ComponentText(d.components[p].rolls))
           && (d.modifier != 0 ==> pieces[|pieces| - 1] == "[" + SignedText(d.modifier) + "]"))
  {
    var joined := Join(DmgParts(d), " + ");
    var tail := " = " + IntToString(d.total);
    assert FormatDmg(d) == joined + tail;
    SplitAtTail(joined, tail);
    DmgPartsShape(d);
    DmgPiecesOfJoin(d);
  }

  /** The joined parts split back into the parts. */
  lemma DmgPiecesOfJoin(d: DmgResult)
    ensures d.components == [] && d.modifier == 0 ==> Join(DmgParts(d), " + ") == []
    ensures d.components != [] || d.modifier != 0 ==> SplitOn(Join(DmgParts(d), " + "), " + ") == DmgParts(d)
  {
    DmgPartsShape(d);
    if DmgParts(d) != [] {
      DmgPartsSepFree(d);
      SplitOfJoin(DmgParts(d), " + ");
    }
  }

  lemma SplitAtTail(body: string, tail: string)
    ensures var text := body + tail;
      text[|text| - |tail|..] == tail && text[..|text| - |tail|] == body
  {
  }

  /** One part per component, in pool order, then the bracketed modifier. */
  lemma DmgPartsShape(d: DmgResult)
    ensures |DmgParts(d)| == |d.components| + (if d.modifier != 0 then 1 else 0)
    ensures forall p :: 0 <= p < |d.components| ==> DmgParts(d)[p] == ComponentText(d.components[p].rolls)
    ensures d.modifier != 0 ==> DmgParts(d)[|DmgParts(d)| - 1] == "[" + SignedText(d.modifier) + "]"
  {
  }

  /** Damage text names no die and applies no d20 rule: it never holds the
      bold marker. */
  lemma FormatDmgPlain(d: DmgResult)
    ensures '*' !in FormatDmg(d)
  {
    var parts := DmgParts(d);
    forall p | 0 <= p < |parts|
      ensures '*' !in parts[p]
    {
      if p < |d.components| {
        ComponentLacks(d.components[p].rolls, '*');
      } else {
        NumberLacks(d.modifier, '*');
      }
    }
    JoinChars(parts, " + ", '*');
    NumberLacks(d.total, '*');
  }
}
