/** parse_roll_command and parse_char_command: free command text to a repeat
    count and a canonical dice expression. */
module Commands {
  import opened Results
  import opened Text
  import opened Tokenizer

  const MaxRepeat := 20

  /** The expression rolled when the command names none. */
  const DefaultDie := "1d20"

  datatype RollCommand = RollCommand(repeat: nat, expression: string)

  /** Matches ^[+-]\d+$ (the '$' could also sit before a final newline, but
      every string matched against it is stripped or free of whitespace). */
  predicate IsSignedInt(s: string) {
    |s| >= 2 && IsSign(s[0]) && AllDigits(s[1..])
  }

  // ---------------------------------------------------------------------
  // ^([+-])\s*(\d+)(.*)$

  datatype ModifierMatch = ModifierMatch(sign: char, gap: string, digits: string, rest: string)

  /** (.*)$: the text up to the end, or up to a newline that is the final character. */
  function RestOfLine(t: string): (r: Option<string>)
    ensures r.Some? ==> '\n' !in r.value && (t == r.value || t == r.value + "\n")
    ensures '\n' !in t ==> r == Some(t)
  {
    if '\n' !in t then Some(t)
    else if t[|t| - 1] == '\n' && '\n' !in t[..|t| - 1] then
      assert t == t[..|t| - 1] + "\n";
      Some(t[..|t| - 1])
    else None
  }

  /** re.match(r'^([+-])\s*(\d+)(.*)$', a): greedy whitespace, then greedy digits. */
  function MatchModifier(a: string): (m: Option<ModifierMatch>)
    ensures m.Some? ==>
      && IsSign(m.value.sign) && AllSpace(m.value.gap)
      && m.value.digits != [] && AllDigits(m.value.digits)
      && '\n' !in m.value.rest
      && (a == [m.value.sign] + m.value.gap + m.value.digits + m.value.rest
          || a == [m.value.sign] + m.value.gap + m.value.digits + m.value.rest + "\n")
  {
    if a == [] || !IsSign(a[0]) then None
    else
      var k := SpaceRunEnd(a, 1);
      var e := DigitRunEnd(a, k);
      if e == k then None
      else
        match RestOfLine(a[e..])
        case None => None
        case Some(rest) =>
          CutInFour(a, k, e);
          Some(ModifierMatch(a[0], a[1..k], a[k..e], rest))
  }

  lemma CutInFour(a: string, k: nat, e: nat)
    requires 1 <= k <= e <= |a|
    ensures a == [a[0]] + a[1..k] + a[k..e] + a[e..]
  {
    assert a == a[..1] + a[1..k] + a[k..e] + a[e..];
  }

  /** The matcher reads back the parts of any text of the shape it accepts. */
  lemma MatchModifierOfParts(sign: char, gap: string, digits: string, rest: string)
    requires IsSign(sign) && AllSpace(gap) && digits != [] && AllDigits(digits)
    requires '\n' !in rest && (rest == [] || !IsDigit(rest[0]))
    ensures MatchModifier([sign] + gap + digits + rest) == Some(ModifierMatch(sign, gap, digits, rest))
  {
    var a := [sign] + gap + digits + rest;
    var k := 1 + |gap|;
    var e := k + |digits|;
    assert a[1..k] == gap && a[k..e] == digits && a[e..] == rest;
    SpaceRunFrom(a, 1, k);
    DigitRunFrom(a, k, e);
  }

  lemma {:induction false} SpaceRunFrom(a: string, i: nat, k: nat)
    requires i <= k <= |a| && AllSpace(a[i..k]) && (k == |a| || !IsSpace(a[k]))
    ensures SpaceRunEnd(a, i) == k
    decreases k - i
  {
    if i < k {
      assert IsSpace(a[i..k][0]);
      assert a[i + 1..k] == a[i..k][1..];
      SpaceRunFrom(a, i + 1, k);
    }
  }

  lemma {:induction false} DigitRunFrom(a: string, i: nat, k: nat)
    requires i <= k <= |a| && AllDigits(a[i..k]) && (k == |a| || !IsDigit(a[k]))
    ensures DigitRunEnd(a, i) == k
    decreases k - i
  {
    if i < k {
      assert IsDigit(a[i..k][0]);
      assert a[i + 1..k] == a[i..k][1..];
      DigitRunFrom(a, i + 1, k);
    }
  }

  // ---------------------------------------------------------------------
  // re.sub(r'(?<![0-9])d', '1d', s, flags=re.IGNORECASE)

  predicate IsD(c: char) {
    c == 'd' || c == 'D'
  }

  /** Every 'd' (either case) has a digit right before it. */
  predicate CountsExplicit(s: string) {
    forall i :: 0 <= i < |s| && IsD(s[i]) ==> i > 0 && IsDigit(s[i - 1])
  }

  /** Each 'd' or 'D' not preceded by a digit becomes "1d"; the rest is kept. */
  function InsertImplicitCount(s: string): (r: string)
    ensures CountsExplicit(r)
    ensures s != [] ==> r != [] && (IsD(s[|s| - 1]) || r[|r| - 1] == s[|s| - 1])
    decreases |s|
  {
    if s == [] then []
    else
      var n := |s| - 1;
      var prev := InsertImplicitCount(s[..n]);
      if IsD(s[n]) && (n == 0 || !IsDigit(s[n - 1])) then
        var r := prev + "1d";
        assert forall i :: 0 <= i < |prev| ==> r[i] == prev[i];
        r
      else
        var r := prev + [s[n]];
        assert forall i :: 0 <= i < |prev| ==> r[i] == prev[i];
        r
  }

  /** What the rewrite makes of position i alone: "1d" for a 'd' or 'D'
      with no digit right before it, the character itself otherwise. */
  function Piece(s: string, i: int): string
    requires 0 <= i < |s|
  {
    if IsD(s[i]) && (i == 0 || !IsDigit(s[i - 1])) then "1d" else [s[i]]
  }

  /** The pieces of every position, in order. */
  function Pieces(s: string): (ps: seq<string>)
    ensures |ps| == |s|
  {
    seq(|s|, i requires 0 <= i < |s| => Piece(s, i))
  }

  /** The rewrite is the concatenation of its per-position pieces: each
      unprefixed die letter becomes exactly "1d" at its own place, and
      every other character stays where it was. */
  lemma {:induction false} InsertImplicitCountPieces(s: string)
    ensures InsertImplicitCount(s) == Concat(Pieces(s))
    decreases |s|
  {
    if s != [] {
      var n := |s| - 1;
      InsertImplicitCountPieces(s[..n]);
      assert Pieces(s) == Pieces(s[..n]) + [Piece(s, n)] by {
        forall i | 0 <= i < n
          ensures Piece(s[..n], i) == Piece(s, i)
        {
          assert s[..n][i] == s[i];
          assert i > 0 ==> s[..n][i - 1] == s[i - 1];
        }
      }
      ConcatSnoc(Pieces(s[..n]), Piece(s, n));
    }
  }

  /** A die with no count rolls one: "d20" becomes "1d20". */
  lemma InsertImplicitCountOfD20()
    ensures InsertImplicitCount("d20") == "1d20"
  {
    InsertImplicitCountPieces("d20");
    var p := Pieces("d20");
    assert p == ["1d", "2", "0"];
    assert Concat(p[1..]) == "20";
  }

  /** Only the die without a count gains one: "2d6+d4" becomes "2d6+1d4". */
  lemma InsertImplicitCountOfMixed()
    ensures InsertImplicitCount("2d6+d4") == "2d6+1d4"
  {
    InsertImplicitCountPieces("2d6+d4");
    var q := Pieces("2d6+d4");
    MixedPieces();
    assert q[5..] == ["4"] && Concat(q[5..]) == "4";
    assert Concat(q[4..]) == "1d4";
    assert Concat(q[3..]) == "+1d4";
    assert Concat(q[2..]) == "6+1d4";
    assert Concat(q[1..]) == "d6+1d4";
  }

  lemma MixedPieces()
    ensures Pieces("2d6+d4") == ["2", "d", "6", "+", "1d", "4"]
  {
    var t := "2d6+d4";
    assert Piece(t, 0) == "2" && Piece(t, 1) == "d" && Piece(t, 2) == "6";
    assert Piece(t, 3) == "+" && Piece(t, 5) == "4";
    assert t[4] == 'd' && t[3] == '+' && !IsDigit(t[3]);
    assert Piece(t, 4) == "1d";
  }

  /** Text whose counts are already explicit is left unchanged. */
  lemma {:induction false} InsertImplicitCountOfExplicit(s: string)
    requires CountsExplicit(s)
    ensures InsertImplicitCount(s) == s
    decreases |s|
  {
    if s != [] {
      var n := |s| - 1;
      assert CountsExplicit(s[..n]) by {
        forall i | 0 <= i < n && IsD(s[..n][i])
          ensures i > 0 && IsDigit(s[..n][i - 1])
        {
          assert s[..n][i] == s[i];
        }
      }
      InsertImplicitCountOfExplicit(s[..n]);
      assert s == s[..n] + [s[n]];
    }
  }

  /** Applying the rewrite twice is the same as once. */
  lemma InsertImplicitCountIdempotent(s: string)
    ensures InsertImplicitCount(InsertImplicitCount(s)) == InsertImplicitCount(s)
  {
    InsertImplicitCountOfExplicit(InsertImplicitCount(s));
  }

  /** The rewrite introduces no character but the '1' and 'd' it inserts,
      and it loses no die: the text holds a 'd' after it exactly when it did before. */
  lemma {:induction false} InsertImplicitCountChars(s: string, c: char)
    ensures c in InsertImplicitCount(s) && c != '1' && c != 'd' ==> c in s
    ensures c in s && c != 'D' ==> c in InsertImplicitCount(s)
    ensures c in s && c == 'D' ==> HasD(InsertImplicitCount(s))
    decreases |s|
  {
    if s != [] {
      var n := |s| - 1;
      var prev := InsertImplicitCount(s[..n]);
      InsertImplicitCountChars(s[..n], c);
      InLastSplit(s, c);
      if IsD(s[n]) && (n == 0 || !IsDigit(s[n - 1])) {
        InAppend(prev, "1d", c);
      } else {
        InAppend(prev, [s[n]], c);
      }
    }
  }

  lemma InLastSplit(s: string, c: char)
    requires s != []
    ensures c in s <==> c in s[..|s| - 1] || c == s[|s| - 1]
  {
    assert s == s[..|s| - 1] + [s[|s| - 1]];
    InAppend(s[..|s| - 1], [s[|s| - 1]], c);
  }

  lemma InsertImplicitCountHasD(s: string)
    ensures HasD(InsertImplicitCount(s)) <==> HasD(s)
  {
    InsertImplicitCountChars(s, 'd');
    InsertImplicitCountChars(s, 'D');
  }

  // ---------------------------------------------------------------------
  // parse_roll_command

  /** The "+3" / "- 5" branch: Some(result) when it decides, None to fall through. */
  function ModifierOnly(a: string): (r: Option<Result<RollCommand>>)
    ensures r.Some? && r.value.Ok? ==>
      r.value.value.repeat == 1 && HasD(r.value.value.expression) && ' ' !in r.value.value.expression
  {
    match MatchModifier(a)
    case None => None
    case Some(m) =>
      var rest := Strip(m.rest);
      if rest == [] then
        SignedDigitsHaveNoSpace(m.sign, m.digits);
        DefaultDieWith([m.sign] + m.digits);
        assert DefaultDie + [m.sign] + m.digits == DefaultDie + ([m.sign] + m.digits);
        Some(Ok(RollCommand(1, DefaultDie + [m.sign] + m.digits)))
      else if HasD(rest) then Some(Err(ModifierBeforeDice))
      else None
  }

  lemma SignedDigitsHaveNoSpace(sign: char, digits: string)
    requires IsSign(sign) && AllDigits(digits)
    ensures ' ' !in [sign] + digits
  {
    assert forall i :: 0 <= i < |digits| ==> digits[i] != ' ';
  }

  /** The branches that look at the first whitespace-separated token. */
  function ByFirstToken(a: string, normalized: string): (r: Result<RollCommand>)
    requires a != [] && !IsSpace(a[0]) && normalized == RemoveSpaces(a)
    ensures r.Ok? ==> 1 <= r.value.repeat <= MaxRepeat && HasD(r.value.expression) && ' ' !in r.value.expression
    ensures r == Err(InvalidNotation(a)) <==> !AllDigits(FirstWord(a)) && !HasD(FirstWord(a))
  {
    var tokens := SplitWords(a);
    SplitWordsShape(a);
    var first := tokens[0];
    if AllDigits(first) then
      var n := DigitsValue(first);
      if |first| > MaxIntDigits then Err(DigitLimitExceeded)
      else if n < 1 || n > MaxRepeat then Err(RepeatCountOutOfRange)
      else if |tokens| == 1 then
        DefaultDieWith([]);
        assert DefaultDie + [] == DefaultDie;
        Ok(RollCommand(n, DefaultDie))
      else
        var rest := RemoveSpaces(Concat(tokens[1..]));
        if IsSignedInt(rest) then
          DefaultDieWith(rest);
          Ok(RollCommand(n, DefaultDie + rest))
        else if HasD(rest) then Ok(RollCommand(n, rest))
        else Err(InvalidNotationAfterCount(rest))
    else if HasD(first) then
      WordDieSurvives(a);
      InsertImplicitCountHasD(normalized);
      InsertImplicitCountChars(normalized, ' ');
      Ok(RollCommand(1, InsertImplicitCount(normalized)))
    else Err(InvalidNotation(a))
  }

  /** parse_roll_command: the repeat count and the expression to roll. */
  function ParseRollCommand(args: string): (r: Result<RollCommand>)
    ensures AllSpace(args) ==> r == Ok(RollCommand(1, DefaultDie))
    ensures r.Ok? ==> 1 <= r.value.repeat <= MaxRepeat
    ensures r.Ok? ==> HasD(r.value.expression) && ' ' !in r.value.expression
  {
    var a := Strip(args);
    if a == [] then Ok(RollCommand(1, DefaultDie))
    else
      var normalized := RemoveSpaces(a);
      if IsSignedInt(normalized) then
        DefaultDieWith(normalized);
        Ok(RollCommand(1, DefaultDie + normalized))
      else
        var early := if IsSign(a[0]) then ModifierOnly(a) else None;
        if early.Some? then
          early.value
        else
          ByFirstToken(a, normalized)
  }

  lemma DefaultDieWith(x: string)
    requires ' ' !in x
    ensures HasD(DefaultDie + x) && ' ' !in DefaultDie + x
  {
    assert (DefaultDie + x)[1] == 'd';
  }

  /** A 'd' in the first word is still there once the spaces are removed. */
  lemma WordDieSurvives(a: string)
    requires HasD(FirstWord(a))
    ensures HasD(RemoveSpaces(a))
  {
    var w := FirstWord(a);
    var c := if 'd' in w then 'd' else 'D';
    var k :| 0 <= k < |w| && w[k] == c;
    assert a[k] == c;
    RemoveSpacesKeeps(a, c);
  }

  // ---------------------------------------------------------------------
  // The branches of parse_roll_command, stated on the stripped input

  /** A signed integer has no 'd' in it. */
  lemma SignedIntHasNoD(s: string)
    requires HasD(s)
    ensures !IsSignedInt(s)
  {
    var c := if 'd' in s then 'd' else 'D';
    var k :| 0 <= k < |s| && s[k] == c;
    assert IsSignedInt(s) && k > 0 ==> IsDigit(s[1..][k - 1]);
  }

  lemma RemoveSpacesOfAllSpace(x: string)
    requires AllSpace(x)
    ensures AllSpace(RemoveSpaces(x))
  {
    var y := RemoveSpaces(x);
    forall i | 0 <= i < |y|
      ensures IsSpace(y[i])
    {
      RemoveSpacesOnlyKeeps(x, y[i]);
    }
  }

  lemma NormalizedParts(a: string, m: ModifierMatch)
    requires a == [m.sign] + m.gap + m.digits + m.rest && IsSign(m.sign) && AllDigits(m.digits)
    ensures RemoveSpaces(a) == [m.sign] + RemoveSpaces(m.gap) + m.digits + RemoveSpaces(m.rest)
  {
    RemoveSpacesAppend([m.sign] + m.gap + m.digits, m.rest);
    RemoveSpacesAppend([m.sign] + m.gap, m.digits);
    RemoveSpacesAppend([m.sign], m.gap);
    RemoveSpacesOfClean(m.digits);
  }

  /** Whitespace cannot sit among the digits of a signed integer. */
  lemma SignedIntHasNoSpace(c: char, g: string, d: string, t: string)
    requires IsSignedInt([c] + g + d + t) && AllSpace(g) && AllSpace(t)
    ensures g == [] && t == [] && [c] + g + d + t == [c] + d
  {
    assert [c] + g + d + t == [c] + (g + (d + t));
    SignedIntAfterSign(c, g, d + t);
    SignedIntLast([c] + g + d, t);
    assert g == [] ==> [c] + g == [c];
    assert t == [] ==> [c] + g + d + t == [c] + g + d;
  }

  /** The character after the sign of a signed integer is a digit. */
  lemma SignedIntAfterSign(c: char, g: string, u: string)
    requires IsSignedInt([c] + (g + u))
    ensures |g| > 0 ==> IsDigit(g[0])
  {
    var n := [c] + (g + u);
    assert |g| > 0 ==> n[1..][0] == g[0];
  }

  /** The last character of a signed integer is a digit. */
  lemma SignedIntLast(x: string, t: string)
    requires IsSignedInt(x + t)
    ensures |t| > 0 ==> IsDigit(t[|t| - 1])
  {
    var n := x + t;
    assert |t| > 0 ==> n[1..][|n| - 2] == t[|t| - 1];
  }

  /** Once replace(" ", "") has run, sign, gap, digits and trailing space
      read as a plain signed integer only when the gap and trailing space
      were nothing but spaces; either way the digits are those of the match. */
  lemma NormalizedModifier(a: string, m: ModifierMatch)
    requires IsSign(m.sign) && AllSpace(m.gap) && AllDigits(m.digits) && AllSpace(m.rest)
    requires a == [m.sign] + m.gap + m.digits + m.rest
    requires IsSignedInt(RemoveSpaces(a))
    ensures RemoveSpaces(a) == [m.sign] + m.digits
  {
    var g := RemoveSpaces(m.gap);
    var t := RemoveSpaces(m.rest);
    NormalizedParts(a, m);
    RemoveSpacesOfAllSpace(m.gap);
    RemoveSpacesOfAllSpace(m.rest);
    SignedIntHasNoSpace(m.sign, g, m.digits, t);
  }

  /** "+3", "+ 3", "-\t5": a sign, optional whitespace and digits roll one
      d20 with that modifier. */
  lemma RollCommandModifierOnly(args: string)
    requires MatchModifier(Strip(args)).Some?
    requires Strip(MatchModifier(Strip(args)).value.rest) == []
    ensures var m := MatchModifier(Strip(args)).value;
      ParseRollCommand(args) == Ok(RollCommand(1, DefaultDie + [m.sign] + m.digits))
  {
    var a := Strip(args);
    ModifierOnlyOfBareModifier(a);
    if IsSignedInt(RemoveSpaces(a)) {
      ParseViaSignedInt(args);
      BareModifierText(a);
    } else {
      ParseViaModifier(args);
    }
  }

  /** With its spaces removed, a bare modifier is its sign and digits. */
  lemma BareModifierText(a: string)
    requires a == [] || !IsSpace(a[|a| - 1])
    requires MatchModifier(a).Some? && Strip(MatchModifier(a).value.rest) == []
    requires IsSignedInt(RemoveSpaces(a))
    ensures var m := MatchModifier(a).value;
      DefaultDie + RemoveSpaces(a) == DefaultDie + [m.sign] + m.digits
  {
    var m := MatchModifier(a).value;
    StrippedMatchHasNoNewline(a, m);
    assert AllSpace(m.rest);
    NormalizedModifier(a, m);
    AppendAssoc(DefaultDie, [m.sign], m.digits);
  }

  lemma AppendAssoc(x: string, y: string, z: string)
    ensures x + (y + z) == x + y + z
  {
  }

  lemma ModifierOnlyOfBareModifier(a: string)
    requires MatchModifier(a).Some? && Strip(MatchModifier(a).value.rest) == []
    ensures a != [] && IsSign(a[0])
    ensures var m := MatchModifier(a).value;
      ModifierOnly(a) == Some(Ok(RollCommand(1, DefaultDie + [m.sign] + m.digits)))
  {
  }

  /** A stripped text does not end in a newline, so the match took it all. */
  lemma StrippedMatchHasNoNewline(a: string, m: ModifierMatch)
    requires a == [] || !IsSpace(a[|a| - 1])
    requires MatchModifier(a) == Some(m)
    ensures a == [m.sign] + m.gap + m.digits + m.rest
  {
    var b := [m.sign] + m.gap + m.digits + m.rest + "\n";
    assert b[|b| - 1] == '\n';
  }

  /** "+3 2d6": a modifier written before dice is refused. */
  lemma RollCommandModifierBeforeDice(args: string)
    requires MatchModifier(Strip(args)).Some?
    requires HasD(Strip(MatchModifier(Strip(args)).value.rest))
    ensures ParseRollCommand(args) == Err(ModifierBeforeDice)
  {
    var a := Strip(args);
    var m := MatchModifier(a).value;
    var rest := Strip(m.rest);
    var c := if 'd' in rest then 'd' else 'D';
    StripKeeps(m.rest, c);
    assert c in a by {
      var k :| 0 <= k < |m.rest| && m.rest[k] == c;
      assert a[1 + |m.gap| + |m.digits| + k] == c;
    }
    RemoveSpacesKeeps(a, c);
    SignedIntHasNoD(RemoveSpaces(a));
    ModifierOnlyOfModifierBeforeDice(a);
    ParseViaModifier(args);
  }

  lemma ModifierOnlyOfModifierBeforeDice(a: string)
    requires MatchModifier(a).Some? && HasD(Strip(MatchModifier(a).value.rest))
    ensures a != [] && IsSign(a[0])
    ensures ModifierOnly(a) == Some(Err(ModifierBeforeDice))
  {
  }

  /** Text that reads as a signed integer once its spaces are gone rolls one
      d20 with that modifier. */
  lemma ParseViaSignedInt(args: string)
    requires Strip(args) != [] && IsSignedInt(RemoveSpaces(Strip(args)))
    ensures ParseRollCommand(args) == Ok(RollCommand(1, DefaultDie + RemoveSpaces(Strip(args))))
  {
  }

  /** Otherwise, text that starts with a sign and that the modifier branch
      decides gets that branch's answer. */
  lemma ParseViaModifier(args: string)
    requires Strip(args) != [] && !IsSignedInt(RemoveSpaces(Strip(args)))
    requires IsSign(Strip(args)[0]) && ModifierOnly(Strip(args)).Some?
    ensures ParseRollCommand(args) == ModifierOnly(Strip(args)).value
  {
  }

  /** Text that is not a signed integer and not caught by the modifier
      branch is decided by its first token. */
  lemma ParseViaFirstToken(args: string)
    requires Strip(args) != [] && !IsSignedInt(RemoveSpaces(Strip(args)))
    requires !IsSign(Strip(args)[0]) || ModifierOnly(Strip(args)).None?
    ensures ParseRollCommand(args) == ByFirstToken(Strip(args), RemoveSpaces(Strip(args)))
  {
  }

  /** The first token is the first word of the text, and the tokens after it
      joined are the rest of the text without its whitespace. */
  lemma FirstTokenFacts(a: string)
    requires a != [] && !IsSpace(a[0])
    ensures SplitWords(a)[0] == FirstWord(a)
    ensures RemoveSpaces(Concat(SplitWords(a)[1..])) == RemoveWhitespace(a[WordEnd(a)..])
    ensures |SplitWords(a)| == 1 <==> RemoveWhitespace(a[WordEnd(a)..]) == []
  {
    SplitWordsShape(a);
    var tokens := SplitWords(a);
    RemoveSpacesOfClean(RemoveWhitespace(a[WordEnd(a)..]));
    if RemoveWhitespace(a[WordEnd(a)..]) == [] {
      ConcatEmpty(tokens[1..]);
    }
  }

  /** Text of no recognised shape is refused with InvalidNotation of the
      stripped text: not a signed integer, not decided by the modifier
      branch, and a first word that is neither a number nor names a die
      ("abc", "x 2d6", "+3 x"). */
  lemma RollCommandNoShape(args: string)
    requires Strip(args) != [] && !IsSignedInt(RemoveSpaces(Strip(args)))
    requires !IsSign(Strip(args)[0]) || ModifierOnly(Strip(args)).None?
    requires !AllDigits(FirstWord(Strip(args))) && !HasD(FirstWord(Strip(args)))
    ensures ParseRollCommand(args) == Err(InvalidNotation(Strip(args)))
  {
    ParseViaFirstToken(args);
  }

  /** A first word of digits is a repeat count: out of 1..20 it is refused;
      alone it rolls a d20 that many times; otherwise the remaining text,
      without whitespace, is a modifier for a d20 or a dice expression. */
  lemma RollCommandRepeat(args: string)
    requires Strip(args) != [] && AllDigits(FirstWord(Strip(args)))
    ensures var a := Strip(args);
      var n := DigitsValue(FirstWord(a));
      var rest := RemoveWhitespace(a[WordEnd(a)..]);
      ParseRollCommand(args) ==
        if |FirstWord(a)| > MaxIntDigits then Err(DigitLimitExceeded)
        else if n < 1 || n > MaxRepeat then Err(RepeatCountOutOfRange)
        else if rest == [] then Ok(RollCommand(n, DefaultDie))
        else if IsSignedInt(rest) then Ok(RollCommand(n, DefaultDie + rest))
        else if HasD(rest) then Ok(RollCommand(n, rest))
        else Err(InvalidNotationAfterCount(rest))
  {
    var a := Strip(args);
    SplitWordsShape(a);
    assert IsDigit(FirstWord(a)[0]) && a[0] == FirstWord(a)[0];
    assert RemoveSpaces(a)[0] == a[0];
    ParseViaFirstToken(args);
    FirstTokenFacts(a);
  }

  /** "d20", "2d6+3", "D8 + 1": a first word holding a die rolls once, with a
      missing count written in as 1. */
  lemma RollCommandDiceFirst(args: string)
    requires Strip(args) != [] && HasD(FirstWord(Strip(args)))
    requires !IsSign(Strip(args)[0]) || ModifierOnly(Strip(args)).None?
    ensures ParseRollCommand(args) == Ok(RollCommand(1, InsertImplicitCount(RemoveSpaces(Strip(args)))))
  {
    var a := Strip(args);
    WordDieSurvives(a);
    SignedIntHasNoD(RemoveSpaces(a));
    ParseViaFirstToken(args);
    FirstTokenFacts(a);
    var w := FirstWord(a);
    var c := if 'd' in w then 'd' else 'D';
    var k :| 0 <= k < |w| && w[k] == c;
    assert !AllDigits(w) by {
      assert !IsDigit(w[k]);
    }
  }

  /** The documented default: "d20" rolls one d20. */
  lemma RollCommandOfD20()
    ensures ParseRollCommand("d20") == Ok(RollCommand(1, "1d20"))
  {
    var a := "d20";
    assert !IsSpace(a[0]) && !IsSpace(a[2]);
    StripClean(a);
    assert WordEnd(a[2..]) == 1 && WordEnd(a[1..]) == 2 && WordEnd(a) == 3;
    assert FirstWord(a) == a && HasD(a);
    RollCommandDiceFirst(a);
    RemoveSpacesOfClean(a);
    InsertImplicitCountOfD20();
  }

  // ---------------------------------------------------------------------
  // parse_char_command

  /** parse_char_command: how many stat blocks to roll. Both the non-integer
      and the out-of-range case end in the same "Invalid count" error. */
  function ParseCharCommand(args: string): (r: Result<nat>)
    ensures AllSpace(args) ==> r == Ok(1)
    ensures r.Ok? ==> 1 <= r.value <= MaxRepeat
    ensures !AllSpace(args) ==>
      (r.Ok? <==> ParseInt(args).Some? && 1 <= ParseInt(args).value <= MaxRepeat)
    ensures !AllSpace(args) && r.Ok? ==> ParseInt(args) == Some(r.value as int)
    ensures r.Err? ==> r.error == InvalidCount(Strip(args))
  {
    var a := Strip(args);
    StripClean(a);
    if a == [] then Ok(1)
    else
      match ParseInt(a)
      case Some(c) =>
        if 1 <= c <= MaxRepeat then Ok(c) else Err(InvalidCount(a))
      case None => Err(InvalidCount(a))
  }

  /** A count written in decimal is read back exactly, and refused outside
      1..20 (a numeral past int()'s digit limit is far outside it). */
  lemma ParseCharCommandOfIntToString(n: int)
    ensures ParseCharCommand(IntToString(n)) ==
      if 1 <= n <= MaxRepeat then Ok(n) else Err(InvalidCount(IntToString(n)))
  {
    var s := IntToString(n);
    assert !IsSpace(s[0]) && !IsSpace(s[|s| - 1]);
    StripClean(s);
    if |NatToString(Magnitude(n))| <= MaxIntDigits {
      ParseIntOfIntToString(n);
    } else {
      ParseIntOfLongIntToString(n);
      assert Pow10(2) == 100 by {
        assert Pow10(1) == 10;
      }
      if 1 <= n <= MaxRepeat {
        NatToStringLength(n, 2);
      }
    }
  }
}
