/** The tokeniser shared by roll_dice and roll_dmg: spaces removed, every
    sign padded with spaces, the result split on whitespace, and each token
    classified as a sign, a dice term or a flat integer. */
module Tokenizer {
  import opened Results
  import opened Text
  import opened Notation

  predicate IsSign(c: char) {
    c == '+' || c == '-'
  }

  predicate SignFree(s: string) {
    forall i :: 0 <= i < |s| ==> !IsSign(s[i])
  }

  /** A token split() can yield after padding: a lone sign, or a
      non-empty run of other non-whitespace characters. */
  predicate WellFormedToken(tok: string) {
    tok != [] && NoSpace(tok) && (tok == "+" || tok == "-" || SignFree(tok))
  }

  /** re.sub(r'([+-])', r' \1 ', s): each sign gets a space on either side. */
  function PadSigns(s: string): (r: string)
    ensures forall i :: 0 <= i < |r| && IsSign(r[i]) ==> 0 < i < |r| - 1 && r[i - 1] == ' ' && r[i + 1] == ' '
    ensures SignFree(s) ==> r == s
    decreases |s|
  {
    if s == [] then [] else PadChar(s[0]) + PadSigns(s[1..])
  }

  function PadChar(c: char): string {
    if IsSign(c) then [' ', c, ' '] else [c]
  }

  lemma PadCharKeepsText(c: char)
    ensures RemoveWhitespace(PadChar(c)) == RemoveWhitespace([c])
  {
    assert [c][1..] == [];
    if IsSign(c) {
      var x := PadChar(c);
      assert x[1..] == [c, ' '] && x[1..][1..] == [' '] && x[1..][1..][1..] == [];
      assert RemoveWhitespace(x[1..][1..]) == [];
      assert RemoveWhitespace(x[1..]) == [c];
    }
  }

  /** Padding adds nothing but whitespace. */
  lemma {:induction false} PadSignsKeepsText(s: string)
    ensures RemoveWhitespace(PadSigns(s)) == RemoveWhitespace(s)
    decreases |s|
  {
    if s != [] {
      RemoveWhitespaceAppend(PadChar(s[0]), PadSigns(s[1..]));
      PadCharKeepsText(s[0]);
      PadSignsKeepsText(s[1..]);
      assert s == [s[0]] + s[1..];
      RemoveWhitespaceAppend([s[0]], s[1..]);
    }
  }

  /** A one-pass scanner that cuts at whitespace and around every sign; the
      reference the padded split() is measured against. */
  function Scan(s: string, word: string): seq<string>
    decreases |s|
  {
    if s == [] then Emit(word)
    else if IsSign(s[0]) then Emit(word) + [[s[0]]] + Scan(s[1..], [])
    else if IsSpace(s[0]) then Emit(word) + Scan(s[1..], [])
    else Scan(s[1..], word + [s[0]])
  }

  /** split() across a padded sign: the pending word ends, the sign is a word. */
  lemma SplitAcrossSign(c: char, p: string, word: string)
    requires IsSign(c) && NoSpace(word)
    ensures SplitFrom([' ', c, ' '] + p, word) == Emit(word) + [[c]] + SplitFrom(p, [])
  {
    var q := [' '] + p;
    var rest := SplitFrom(p, []);
    assert [' ', c, ' '] + p == [' '] + ([c] + q);
    SplitAtSpace([c] + q, word);
    SplitAtWordChar(c, q, []);
    assert [] + [c] == [c];
    SplitAtSpace(p, [c]);
    assert SplitFrom([c] + q, []) == [[c]] + rest;
    assert Emit(word) + ([[c]] + rest) == Emit(word) + [[c]] + rest;
  }

  lemma SplitAtSpace(p: string, word: string)
    requires NoSpace(word)
    ensures SplitFrom([' '] + p, word) == Emit(word) + SplitFrom(p, [])
  {
    assert ([' '] + p)[1..] == p;
  }

  lemma SplitAtWordChar(c: char, p: string, word: string)
    requires !IsSpace(c) && NoSpace(word)
    ensures SplitFrom([c] + p, word) == SplitFrom(p, word + [c])
  {
    assert ([c] + p)[1..] == p;
  }

  /** Padding the signs and splitting on whitespace is exactly the scanner. */
  lemma {:induction false} SplitPadded(s: string, word: string)
    requires NoSpace(word)
    ensures SplitFrom(PadSigns(s), word) == Scan(s, word)
    decreases |s|
  {
    if s != [] {
      var c := s[0];
      var p := PadSigns(s[1..]);
      SplitPadded(s[1..], []);
      if IsSign(c) {
        SplitAcrossSign(c, p, word);
        assert PadSigns(s) == [' ', c, ' '] + p;
      } else {
        assert PadSigns(s) == [c] + p;
        assert ([c] + p)[1..] == p;
        if !IsSpace(c) {
          SplitPadded(s[1..], word + [c]);
        }
      }
    }
  }

  /** Every token the scanner emits is a lone sign or a sign-free word. */
  lemma {:induction false} ScanShape(s: string, word: string)
    requires NoSpace(word) && SignFree(word)
    ensures forall i :: 0 <= i < |Scan(s, word)| ==> WellFormedToken(Scan(s, word)[i])
    decreases |s|
  {
    if s != [] {
      var c := s[0];
      ScanShape(s[1..], []);
      if !IsSign(c) && !IsSpace(c) {
        ScanShape(s[1..], word + [c]);
      } else if IsSign(c) {
        var head := Emit(word) + [[c]];
        assert forall i :: 0 <= i < |head| ==> WellFormedToken(head[i]);
      }
    }
  }

  /** The token list of an expression: expression.replace(" ", ""), the
      signs padded, then split(). */
  function Tokenize(expression: string): (tokens: seq<string>)
    ensures tokens == Scan(RemoveSpaces(expression), [])
    ensures Concat(tokens) == RemoveWhitespace(expression)
    ensures forall i :: 0 <= i < |tokens| ==> WellFormedToken(tokens[i])
  {
    var stripped := RemoveSpaces(expression);
    var tokens := SplitWords(PadSigns(stripped));
    PadSignsKeepsText(stripped);
    RemoveSpacesThenWhitespace(expression);
    SplitPadded(stripped, []);
    ScanShape(stripped, []);
    tokens
  }

  // ---------------------------------------------------------------------
  // Classification

  datatype Item =
    | Sign(sign: int)                         // a '+' or '-' token
    | Dice(notation: string, term: DiceTerm)  // a token holding a 'd', parsed
    | Flat(value: int)                        // an integer token

  /** What the loop body accepts a token as: the branch order is the sign
      tests, then any 'd' (so "1d" is a bad term, never an integer), then int(). */
  predicate ValidItem(tok: string, item: Item) {
    match item
    case Sign(s) => (tok == "+" && s == 1) || (tok == "-" && s == -1)
    case Dice(n, t) =>
      && n == tok && tok != "+" && tok != "-" && HasD(tok)
      && ParseDiceOnly(tok) == Ok(t)
    case Flat(v) =>
      && tok != "+" && tok != "-" && !HasD(tok)
      && ParseInt(tok) == Some(v)
  }

  /** The loop body's reading of one token: a sign, a dice term, an integer,
      or the error it raises. */
  function ClassifyToken(tok: string): (r: Result<Item>)
    ensures r.Ok? ==> ValidItem(tok, r.value)
    ensures r.Err? ==> tok != "+" && tok != "-"
    ensures r.Err? && HasD(tok) ==> ParseDiceOnly(tok) == Err(r.error)
    ensures r.Err? && !HasD(tok) ==> ParseInt(tok) == None && r.error == InvalidToken(tok)
  {
    if tok == "+" then Ok(Sign(1))
    else if tok == "-" then Ok(Sign(-1))
    else if HasD(tok) then
      match ParseDiceOnly(tok)
      case Ok(t) => Ok(Dice(tok, t))
      case Err(e) => Err(e)
    else
      match ParseInt(tok)
      case Some(v) => Ok(Flat(v))
      case None => Err(InvalidToken(tok))
  }

  /** A token has at most one reading, and the classifier finds it. */
  lemma ClassifyTokenComplete(tok: string, item: Item)
    requires ValidItem(tok, item)
    ensures ClassifyToken(tok) == Ok(item)
  {
  }

  /** Classify every token; the first failing token, in order, decides the error. */
  function ClassifyTokens(tokens: seq<string>): (r: Result<seq<Item>>)
    ensures r.Ok? <==> forall i :: 0 <= i < |tokens| ==> ClassifyToken(tokens[i]).Ok?
    ensures r.Ok? ==> |r.value| == |tokens|
    ensures r.Ok? ==> forall i :: 0 <= i < |tokens| ==> ClassifyToken(tokens[i]) == Ok(r.value[i])
    ensures r.Err? ==> exists i :: FirstError(tokens, i) && ClassifyToken(tokens[i]) == Err(r.error)
    decreases |tokens|
  {
    if tokens == [] then Ok([])
    else
      match ClassifyToken(tokens[0])
      case Err(e) =>
        assert FirstError(tokens, 0);
        Err(e)
      case Ok(item) =>
        var rest := ClassifyTokens(tokens[1..]);
        match rest
        case Err(e) =>
          var i :| FirstError(tokens[1..], i) && ClassifyToken(tokens[1..][i]) == Err(e);
          assert FirstError(tokens, i + 1);
          Err(e)
        case Ok(items) =>
          PairwiseCons((t, it) => ClassifyToken(t) == Ok(it), tokens, item, items);
          Ok([item] + items)
  }

  /** Pairing a head with a head keeps a pointwise relation pointwise. */
  lemma PairwiseCons<A, B>(rel: (A, B) -> bool, xs: seq<A>, y: B, ys: seq<B>)
    requires xs != [] && rel(xs[0], y) && |ys| == |xs| - 1
    requires forall i :: 0 <= i < |ys| ==> rel(xs[1..][i], ys[i])
    ensures forall i :: 0 <= i < |xs| ==> rel(xs[i], ([y] + ys)[i])
  {
    forall i | 1 <= i < |xs|
      ensures rel(xs[i], ([y] + ys)[i])
    {
      assert xs[i] == xs[1..][i - 1];
    }
  }

  /** Token i is the first one the classifier rejects. */
  predicate FirstError(tokens: seq<string>, i: int) {
    && 0 <= i < |tokens|
    && ClassifyToken(tokens[i]).Err?
    && forall j :: 0 <= j < i ==> ClassifyToken(tokens[j]).Ok?
  }

  /** The items of an expression, or the error the Python loop would raise. */
  function ParseExpression(expression: string): (r: Result<seq<Item>>)
    ensures r.Ok? ==> |r.value| == |Tokenize(expression)|
    ensures r.Ok? ==> forall i :: 0 <= i < |r.value| ==> ValidItem(Tokenize(expression)[i], r.value[i])
    ensures r.Ok? ==> TermsInRange(r.value) && DiceTokensClean(r.value)
    ensures r.Err? ==> exists i :: FirstError(Tokenize(expression), i)
                               && ClassifyToken(Tokenize(expression)[i]) == Err(r.error)
  {
    var tokens := Tokenize(expression);
    var r := ClassifyTokens(tokens);
    if r.Ok? then ClassifiedItems(tokens); r else r
  }

  lemma ClassifiedItems(tokens: seq<string>)
    requires forall i :: 0 <= i < |tokens| ==> WellFormedToken(tokens[i])
    requires ClassifyTokens(tokens).Ok?
    ensures var items := ClassifyTokens(tokens).value;
      && (forall i :: 0 <= i < |items| ==> ValidItem(tokens[i], items[i]))
      && TermsInRange(items) && DiceTokensClean(items)
  {
    var items := ClassifyTokens(tokens).value;
    forall i | 0 <= i < |items|
      ensures ValidItem(tokens[i], items[i])
    {
      assert ClassifyToken(tokens[i]) == Ok(items[i]);
    }
  }

  /** Every dice item holds a term within the parser's limits. */
  predicate TermsInRange(items: seq<Item>) {
    forall i :: 0 <= i < |items| && items[i].Dice? ==>
      1 <= items[i].term.count <= MaxDiceCount && 1 <= items[i].term.sides <= MaxDiceSides
  }

  /** Every dice item's notation is a whitespace-free token that parses to its term. */
  predicate DiceTokensClean(items: seq<Item>) {
    forall i :: 0 <= i < |items| && items[i].Dice? ==>
      NoSpace(items[i].notation) && ParseDiceOnly(items[i].notation) == Ok(items[i].term)
  }

  /** A flat token never carries a sign, so its value is never negative:
      negative contributions come only from a preceding '-' token. */
  lemma FlatItemsNonNegative(expression: string, i: int)
    requires ParseExpression(expression).Ok?
    requires 0 <= i < |ParseExpression(expression).value|
    requires ParseExpression(expression).value[i].Flat?
    ensures ParseExpression(expression).value[i].value >= 0
  {
    var tok := Tokenize(expression)[i];
    assert WellFormedToken(tok);
    assert ValidItem(tok, ParseExpression(expression).value[i]);
    StripClean(tok);
  }
}
