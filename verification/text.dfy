/** The string operations the dice engine borrows from Python: whitespace
    classes, strip() and split(), ASCII case mapping, decimal rendering and
    the int() literal parser. Only ASCII digits are modelled. */
module Text {
  import opened Results

  /** Python's str.isspace(), which strip(), split() and the regex class \s share. */
  predicate IsSpace(c: char) {
    || ('\t' <= c <= '\r')
    || ('\U{1C}' <= c <= '\U{1F}')
    || c == ' ' || c == '\U{85}' || c == '\U{A0}' || c == '\U{1680}'
    || ('\U{2000}' <= c <= '\U{200A}')
    || c == '\U{2028}' || c == '\U{2029}' || c == '\U{202F}' || c == '\U{205F}'
    || c == '\U{3000}'
  }

  predicate IsDigit(c: char) {
    '0' <= c <= '9'
  }

  predicate AllDigits(s: string) {
    forall i :: 0 <= i < |s| ==> IsDigit(s[i])
  }

  predicate NoSpace(s: string) {
    forall i :: 0 <= i < |s| ==> !IsSpace(s[i])
  }

  predicate AllSpace(s: string) {
    forall i :: 0 <= i < |s| ==> IsSpace(s[i])
  }

  /** True iff 'd' occurs in s.lower(). */
  predicate HasD(s: string) {
    'd' in s || 'D' in s
  }

  // ---------------------------------------------------------------------
  // Decimal numbers

  function DigitValue(c: char): nat
    requires IsDigit(c)
  {
    c as int - '0' as int
  }

  function DigitChar(d: nat): (c: char)
    requires d < 10
    ensures IsDigit(c) && DigitValue(c) == d
  {
    ('0' as int + d) as char
  }

  /** int() of a run of ASCII digits; leading zeros are allowed. */
  function DigitsValue(s: string): nat
    requires AllDigits(s)
    decreases |s|
  {
    if s == [] then 0 else 10 * DigitsValue(s[..|s| - 1]) + DigitValue(s[|s| - 1])
  }

  /** str() of a natural number. */
  function NatToString(n: nat): (s: string)
    ensures 0 < |s| && AllDigits(s)
    ensures s[0] == '0' ==> n == 0
    decreases n
  {
    if n < 10 then [DigitChar(n)] else NatToString(n / 10) + [DigitChar(n % 10)]
  }

  lemma {:induction false} NatToStringRoundTrip(n: nat)
    ensures DigitsValue(NatToString(n)) == n
    decreases n
  {
    if n >= 10 {
      var s := NatToString(n);
      assert s[..|s| - 1] == NatToString(n / 10);
      NatToStringRoundTrip(n / 10);
    }
  }

  /** str() of an integer. */
  function IntToString(n: int): (s: string)
    ensures 0 < |s|
    ensures s[0] == '-' <==> n < 0
    ensures forall i :: 0 <= i < |s| ==> IsDigit(s[i]) || (i == 0 && s[i] == '-')
    ensures IsDigit(s[|s| - 1])
  {
    if n < 0 then "-" + NatToString(-n) else NatToString(n)
  }

  /** A non-zero modifier with its sign always shown ("+3", "-2"). */
  function SignedText(m: int): (s: string)
    ensures 0 < |s| && (s[0] == '+' || s[0] == '-' || IsDigit(s[0]))
    ensures forall i :: 0 < i < |s| ==> IsDigit(s[i])
  {
    if m > 0 then "+" + IntToString(m) else IntToString(m)
  }

  // ---------------------------------------------------------------------
  // strip(), replace(" ", ""), split()

  function TrimStart(s: string): (r: string)
    ensures r == [] || !IsSpace(r[0])
    ensures r == [] <==> AllSpace(s)
    decreases |s|
  {
    if s != [] && IsSpace(s[0]) then TrimStart(s[1..]) else s
  }

  function TrimEnd(s: string): (r: string)
    ensures r == [] || !IsSpace(r[|r| - 1])
    ensures s != [] && !IsSpace(s[0]) ==> r != [] && r[0] == s[0]
    decreases |s|
  {
    if s != [] && IsSpace(s[|s| - 1]) then TrimEnd(s[..|s| - 1]) else s
  }

  /** str.strip(): the text between the leading and the trailing whitespace. */
  function Strip(s: string): (r: string)
    ensures r == [] <==> AllSpace(s)
    ensures r != [] ==> !IsSpace(r[0]) && !IsSpace(r[|r| - 1])
  {
    TrimEnd(TrimStart(s))
  }

  lemma StripClean(s: string)
    requires s == [] || (!IsSpace(s[0]) && !IsSpace(s[|s| - 1]))
    ensures Strip(s) == s
  {
  }

  /** lstrip() removes a whitespace prefix and keeps the rest intact. */
  lemma {:induction false} TrimStartIsSuffix(s: string)
    ensures |TrimStart(s)| <= |s|
    ensures TrimStart(s) == s[|s| - |TrimStart(s)|..]
    ensures AllSpace(s[..|s| - |TrimStart(s)|])
    decreases |s|
  {
    if s != [] && IsSpace(s[0]) {
      var t := s[1..];
      TrimStartIsSuffix(t);
      var k := |t| - |TrimStart(t)|;
      assert t[k..] == s[k + 1..];
      assert s[..k + 1] == [s[0]] + t[..k];
      AllSpaceAppend([s[0]], t[..k]);
    }
  }

  lemma AllSpaceAppend(x: string, y: string)
    requires AllSpace(x) && AllSpace(y)
    ensures AllSpace(x + y)
  {
    forall i | 0 <= i < |x + y|
      ensures IsSpace((x + y)[i])
    {
      if i >= |x| {
        assert (x + y)[i] == y[i - |x|];
      }
    }
  }

  /** rstrip() removes a whitespace suffix and keeps the rest intact. */
  lemma {:induction false} TrimEndIsPrefix(s: string)
    ensures |TrimEnd(s)| <= |s|
    ensures TrimEnd(s) == s[..|TrimEnd(s)|]
    ensures AllSpace(s[|TrimEnd(s)|..])
    decreases |s|
  {
    if s != [] && IsSpace(s[|s| - 1]) {
      var t := s[..|s| - 1];
      TrimEndIsPrefix(t);
      var k := |TrimEnd(t)|;
      assert t[..k] == s[..k];
      assert s[k..] == t[k..] + [s[|s| - 1]];
      AllSpaceAppend(t[k..], [s[|s| - 1]]);
    }
  }

  /** strip() keeps a contiguous slice of its input, with only whitespace
      on either side of it. */
  lemma StripIsInfix(s: string)
    ensures exists i, j :: 0 <= i <= j <= |s| && Strip(s) == s[i..j] && AllSpace(s[..i]) && AllSpace(s[j..])
  {
    var u := TrimStart(s);
    TrimStartIsSuffix(s);
    TrimEndIsPrefix(u);
    var i := |s| - |u|;
    var j := i + |TrimEnd(u)|;
    assert Strip(s) == s[i..j];
    assert s[j..] == u[|TrimEnd(u)|..];
  }

  /** Every character strip() returns was in its input. */
  lemma StripKeeps(s: string, c: char)
    requires c in Strip(s)
    ensures c in s
  {
    StripIsInfix(s);
    var i, j :| 0 <= i <= j <= |s| && Strip(s) == s[i..j] && AllSpace(s[..i]) && AllSpace(s[j..]);
    var k :| 0 <= k < |s[i..j]| && s[i..j][k] == c;
    assert s[i + k] == c;
  }

  /** str.replace(" ", ""): removes the space character only. */
  function RemoveSpaces(s: string): (r: string)
    ensures ' ' !in r
    ensures |r| <= |s|
    decreases |s|
  {
    if s == [] then [] else (if s[0] == ' ' then [] else [s[0]]) + RemoveSpaces(s[1..])
  }

  /** Every character other than whitespace, in order. */
  function RemoveWhitespace(s: string): (r: string)
    ensures NoSpace(r)
    decreases |s|
  {
    if s == [] then [] else (if IsSpace(s[0]) then [] else [s[0]]) + RemoveWhitespace(s[1..])
  }

  lemma {:induction false} RemoveWhitespaceAppend(x: string, y: string)
    ensures RemoveWhitespace(x + y) == RemoveWhitespace(x) + RemoveWhitespace(y)
    decreases |x|
  {
    if x != [] {
      var head := if IsSpace(x[0]) then [] else [x[0]];
      assert (x + y)[0] == x[0];
      assert (x + y)[1..] == x[1..] + y;
      RemoveWhitespaceAppend(x[1..], y);
      assert RemoveWhitespace(x + y) == head + (RemoveWhitespace(x[1..]) + RemoveWhitespace(y));
    } else {
      assert x + y == y;
    }
  }

  lemma {:induction false} RemoveWhitespaceOfClean(s: string)
    requires NoSpace(s)
    ensures RemoveWhitespace(s) == s
    decreases |s|
  {
    if s != [] {
      RemoveWhitespaceOfClean(s[1..]);
    }
  }

  lemma {:induction false} RemoveSpacesThenWhitespace(s: string)
    ensures RemoveWhitespace(RemoveSpaces(s)) == RemoveWhitespace(s)
    decreases |s|
  {
    if s != [] {
      var head := if s[0] == ' ' then [] else [s[0]];
      RemoveWhitespaceAppend(head, RemoveSpaces(s[1..]));
      RemoveSpacesThenWhitespace(s[1..]);
    }
  }

  lemma {:induction false} RemoveSpacesAppend(x: string, y: string)
    ensures RemoveSpaces(x + y) == RemoveSpaces(x) + RemoveSpaces(y)
    decreases |x|
  {
    if x != [] {
      assert (x + y)[0] == x[0];
      assert (x + y)[1..] == x[1..] + y;
      RemoveSpacesAppend(x[1..], y);
    } else {
      assert x + y == y;
    }
  }

  /** replace(" ", "") leaves text without spaces unchanged. */
  lemma {:induction false} RemoveSpacesOfClean(s: string)
    requires ' ' !in s
    ensures RemoveSpaces(s) == s
    decreases |s|
  {
    if s != [] {
      assert s[0] != ' ';
      RemoveSpacesOfClean(s[1..]);
    }
  }

  /** Only characters of s survive replace(" ", ""). */
  lemma {:induction false} RemoveSpacesOnlyKeeps(s: string, c: char)
    requires c in RemoveSpaces(s)
    ensures c in s && c != ' '
    decreases |s|
  {
    if s[0] != c || c == ' ' {
      RemoveSpacesOnlyKeeps(s[1..], c);
    }
  }

  /** Characters other than the space survive replace(" ", ""). */
  lemma {:induction false} RemoveSpacesKeeps(s: string, c: char)
    requires c in s && c != ' '
    ensures c in RemoveSpaces(s)
    decreases |s|
  {
    if s[0] != c {
      RemoveSpacesKeeps(s[1..], c);
    }
  }

  /** The word under construction, emitted if non-empty. */
  function Emit(word: string): seq<string> {
    if word == [] then [] else [word]
  }

  /** The words of s, the first one already begun in `word`. */
  function SplitFrom(s: string, word: string): (words: seq<string>)
    requires NoSpace(word)
    ensures Concat(words) == word + RemoveWhitespace(s)
    ensures forall i :: 0 <= i < |words| ==> words[i] != [] && NoSpace(words[i])
    decreases |s|
  {
    if s == [] then
      ConcatCons(word, []);
      Emit(word)
    else if IsSpace(s[0]) then
      var rest := SplitFrom(s[1..], []);
      ConcatCons(word, rest);
      assert RemoveWhitespace(s) == RemoveWhitespace(s[1..]);
      Emit(word) + rest
    else
      assert RemoveWhitespace(s) == [s[0]] + RemoveWhitespace(s[1..]);
      assert word + RemoveWhitespace(s) == (word + [s[0]]) + RemoveWhitespace(s[1..]);
      SplitFrom(s[1..], word + [s[0]])
  }

  /** str.split() with no separator: the maximal runs of non-whitespace. */
  function SplitWords(s: string): (words: seq<string>)
    ensures Concat(words) == RemoveWhitespace(s)
    ensures forall i :: 0 <= i < |words| ==> words[i] != [] && NoSpace(words[i])
  {
    assert [] + RemoveWhitespace(s) == RemoveWhitespace(s);
    SplitFrom(s, [])
  }

  /** The word under construction ends exactly where the first whitespace
      of s is: split() neither joins text across whitespace nor breaks a
      run of non-whitespace. */
  lemma {:induction false} SplitFromCutsAtWordEnd(s: string, word: string)
    requires NoSpace(word)
    ensures SplitFrom(s, word) == Emit(word + FirstWord(s)) + SplitFrom(s[WordEnd(s)..], [])
    decreases |s|
  {
    if s == [] {
      assert word + FirstWord(s) == word;
    } else if IsSpace(s[0]) {
      assert word + FirstWord(s) == word;
      assert s[WordEnd(s)..] == s;
    } else {
      var w := word + [s[0]];
      assert SplitFrom(s, word) == SplitFrom(s[1..], w);
      SplitFromCutsAtWordEnd(s[1..], w);
      WordStep(s, word);
    }
  }

  /** Past a non-space first character, the word and the rest after it are
      those of s[1..]. */
  lemma WordStep(s: string, word: string)
    requires s != [] && !IsSpace(s[0])
    ensures (word + [s[0]]) + FirstWord(s[1..]) == word + FirstWord(s)
    ensures s[1..][WordEnd(s[1..])..] == s[WordEnd(s)..]
  {
    var k := WordEnd(s[1..]);
    WordEndStep(s);
    FirstWordStep(s);
    assert (word + [s[0]]) + FirstWord(s[1..]) == word + ([s[0]] + FirstWord(s[1..]));
    assert s[k + 1..] == s[1..][k..];
  }

  lemma WordEndStep(s: string)
    requires s != [] && !IsSpace(s[0])
    ensures WordEnd(s) == WordEnd(s[1..]) + 1
  {
  }

  lemma FirstWordStep(s: string)
    requires s != [] && !IsSpace(s[0])
    ensures FirstWord(s) == [s[0]] + FirstWord(s[1..])
  {
    var k := WordEnd(s[1..]);
    WordEndStep(s);
    assert s[..k + 1] == [s[0]] + s[1..][..k];
  }

  /** split() one step at a time: leading whitespace is dropped, and a
      leading non-space begins a word that runs to the next whitespace. */
  lemma SplitWordsStep(s: string)
    requires s != []
    ensures IsSpace(s[0]) ==> SplitWords(s) == SplitWords(s[1..])
    ensures !IsSpace(s[0]) ==> SplitWords(s) == [FirstWord(s)] + SplitWords(s[WordEnd(s)..])
  {
    if IsSpace(s[0]) {
      assert SplitFrom(s, []) == [] + SplitFrom(s[1..], []);
    } else {
      SplitFromCutsAtWordEnd(s, []);
      assert [] + FirstWord(s) == FirstWord(s) != [];
    }
  }

  lemma InAppend(x: string, y: string, c: char)
    ensures c in x + y <==> c in x || c in y
  {
  }

  function Concat(words: seq<string>): string
    decreases |words|
  {
    if words == [] then [] else words[0] + Concat(words[1..])
  }

  /** Concatenation is taken word by word from the front, so a word added at
      the back lands at the end. */
  lemma {:induction false} ConcatSnoc(words: seq<string>, w: string)
    ensures Concat(words + [w]) == Concat(words) + w
    decreases |words|
  {
    if words == [] {
      assert [] + [w] == [w] && [w][1..] == [];
    } else {
      assert (words + [w])[0] == words[0] && (words + [w])[1..] == words[1..] + [w];
      ConcatSnoc(words[1..], w);
    }
  }

  lemma ConcatCons(word: string, rest: seq<string>)
    ensures Concat(Emit(word) + rest) == word + Concat(rest)
  {
    if word != [] {
      assert ([word] + rest)[0] == word;
      assert ([word] + rest)[1..] == rest;
    } else {
      assert [] + rest == rest;
    }
  }

  /** Non-empty words have an empty concatenation only if there are none. */
  lemma ConcatEmpty(words: seq<string>)
    requires forall i :: 0 <= i < |words| ==> words[i] != []
    requires Concat(words) == []
    ensures words == []
  {
  }

  /** Index of the first whitespace character of s, or |s|. */
  function WordEnd(s: string): (k: nat)
    ensures k <= |s| && NoSpace(s[..k]) && (k == |s| || IsSpace(s[k]))
    decreases |s|
  {
    if s == [] || IsSpace(s[0]) then 0 else 1 + WordEnd(s[1..])
  }

  /** End of the run of ASCII digits that starts at index i. */
  function DigitRunEnd(s: string, i: nat): (k: nat)
    requires i <= |s|
    ensures i <= k <= |s| && AllDigits(s[i..k]) && (k == |s| || !IsDigit(s[k]))
    decreases |s| - i
  {
    if i == |s| || !IsDigit(s[i]) then i else DigitRunEnd(s, i + 1)
  }

  /** End of the run of whitespace that starts at index i. */
  function SpaceRunEnd(s: string, i: nat): (k: nat)
    requires i <= |s|
    ensures i <= k <= |s| && AllSpace(s[i..k]) && (k == |s| || !IsSpace(s[k]))
    decreases |s| - i
  {
    if i == |s| || !IsSpace(s[i]) then i else SpaceRunEnd(s, i + 1)
  }

  function FirstWord(s: string): string {
    s[..WordEnd(s)]
  }

  lemma {:induction false} SplitFromHead(s: string, word: string)
    requires NoSpace(word)
    requires word != [] || (s != [] && !IsSpace(s[0]))
    ensures |SplitFrom(s, word)| > 0
    ensures SplitFrom(s, word)[0] == word + FirstWord(s)
    decreases |s|
  {
    if s != [] && !IsSpace(s[0]) {
      SplitFromHead(s[1..], word + [s[0]]);
      assert s[..WordEnd(s)] == [s[0]] + s[1..][..WordEnd(s[1..])];
    }
  }

  /** For text that starts with a non-space, split() yields the first word
      followed by words whose concatenation is the rest without whitespace. */
  lemma SplitWordsShape(a: string)
    requires a != [] && !IsSpace(a[0])
    ensures |SplitWords(a)| > 0
    ensures SplitWords(a)[0] == FirstWord(a) && FirstWord(a) != []
    ensures Concat(SplitWords(a)[1..]) == RemoveWhitespace(a[WordEnd(a)..])
  {
    var words := SplitWords(a);
    var k := WordEnd(a);
    FirstWordOfSplit(a);
    assert Concat(words) == words[0] + Concat(words[1..]);
    RemoveWhitespaceAtWordEnd(a);
    CancelPrefix(a[..k], Concat(words[1..]), RemoveWhitespace(a[k..]));
  }

  lemma FirstWordOfSplit(a: string)
    requires a != [] && !IsSpace(a[0])
    ensures |SplitWords(a)| > 0 && SplitWords(a)[0] == a[..WordEnd(a)]
    ensures Concat(SplitWords(a)) == RemoveWhitespace(a)
  {
    SplitFromHead(a, []);
    assert [] + FirstWord(a) == a[..WordEnd(a)];
    assert [] + RemoveWhitespace(a) == RemoveWhitespace(a);
  }

  lemma RemoveWhitespaceAtWordEnd(a: string)
    ensures RemoveWhitespace(a) == a[..WordEnd(a)] + RemoveWhitespace(a[WordEnd(a)..])
  {
    var k := WordEnd(a);
    assert a == a[..k] + a[k..];
    RemoveWhitespaceAppend(a[..k], a[k..]);
    RemoveWhitespaceOfClean(a[..k]);
  }

  lemma CancelPrefix(a: string, b: string, c: string)
    requires a + b == a + c
    ensures b == c
  {
    assert (a + b)[|a|..] == b;
    assert (a + c)[|a|..] == c;
  }

  // ---------------------------------------------------------------------
  // ASCII case mapping

  function LowerChar(c: char): char {
    if 'A' <= c <= 'Z' then (c as int + 32) as char else c
  }

  function UpperChar(c: char): char {
    if 'a' <= c <= 'z' then (c as int - 32) as char else c
  }

  /** str.lower(), ASCII letters only. */
  function Lower(s: string): (r: string)
    ensures |r| == |s|
  {
    seq(|s|, i requires 0 <= i < |s| => LowerChar(s[i]))
  }

  /** lower() leaves no ASCII capital, changes exactly the capitals, and
      keeps the text equal ignoring case. */
  lemma LowerCases(s: string)
    ensures var r := Lower(s);
      && (forall i :: 0 <= i < |s| ==> !('A' <= r[i] <= 'Z'))
      && (forall i :: 0 <= i < |s| ==> (r[i] == s[i] <==> !('A' <= s[i] <= 'Z')))
      && (forall i :: 0 <= i < |s| ==> UpperChar(r[i]) == UpperChar(s[i]))
  {
  }

  /** str.upper(), ASCII letters only. */
  function Upper(s: string): (r: string)
    ensures |r| == |s|
  {
    seq(|s|, i requires 0 <= i < |s| => UpperChar(s[i]))
  }

  /** upper() leaves no ASCII lower-case letter, changes exactly those, and
      keeps the text equal ignoring case. */
  lemma UpperCases(s: string)
    ensures var r := Upper(s);
      && (forall i :: 0 <= i < |s| ==> !('a' <= r[i] <= 'z'))
      && (forall i :: 0 <= i < |s| ==> (r[i] == s[i] <==> !('a' <= s[i] <= 'z')))
      && (forall i :: 0 <= i < |s| ==> LowerChar(r[i]) == LowerChar(s[i]))
  {
  }

  // ---------------------------------------------------------------------
  // int()

  /** Position i of a literal body is a digit, or a single '_' between digits. */
  predicate BodyCharOk(b: string, i: int)
    requires 0 <= i < |b|
  {
    IsDigit(b[i]) || (b[i] == '_' && 0 < i < |b| - 1 && IsDigit(b[i + 1]))
  }

  /** Python's decimal literal body: digits, optionally grouped by single underscores. */
  predicate IsIntBody(b: string) {
    |b| > 0 && forall i :: 0 <= i < |b| ==> BodyCharOk(b, i)
  }

  function DropUnderscores(b: string): (r: string)
    ensures (forall i :: 0 <= i < |b| ==> IsDigit(b[i]) || b[i] == '_') ==> AllDigits(r)
    ensures AllDigits(b) ==> r == b
    decreases |b|
  {
    if b == [] then [] else (if b[0] == '_' then [] else [b[0]]) + DropUnderscores(b[1..])
  }

  function BodyValue(b: string): nat
    requires IsIntBody(b)
  {
    forall i | 0 <= i < |b|
      ensures IsDigit(b[i]) || b[i] == '_'
    {
      assert BodyCharOk(b, i);
    }
    DigitsValue(DropUnderscores(b))
  }

  /** CPython's default bound on the digits of an int/str conversion: int()
      raises ValueError for a numeral with more digits, leading zeros
      included and underscores not counted. */
  const MaxIntDigits := 4300

  /** int(s) for a str argument in base 10: surrounding whitespace, an
      optional sign, then the literal body. None where Python raises, with
      one difference: when the whole text is ASCII, CPython trims only the six
      ASCII whitespace characters, and this trims every str.isspace character.
      The engine passes int() only stripped or split text, where the two agree. */
  function ParseInt(s: string): (r: Option<int>)
    ensures AllSpace(s) ==> r == None
    ensures r.Some? ==> forall i :: 0 <= i < |s| ==>
      IsSpace(s[i]) || IsDigit(s[i]) || s[i] == '_' || s[i] == '+' || s[i] == '-'
  {
    ParseIntChars(s);
    ParseSignedBody(Strip(s))
  }

  /** What int() accepts is whitespace around a literal of digits,
      underscores and one sign. */
  lemma ParseIntChars(s: string)
    ensures ParseSignedBody(Strip(s)).Some? ==> forall i :: 0 <= i < |s| ==>
      IsSpace(s[i]) || IsDigit(s[i]) || s[i] == '_' || s[i] == '+' || s[i] == '-'
  {
    var t := Strip(s);
    if ParseSignedBody(t).Some? {
      SignedBodyChars(t);
      StripIsInfix(s);
      var i, j :| 0 <= i <= j <= |s| && t == s[i..j] && AllSpace(s[..i]) && AllSpace(s[j..]);
      forall k | 0 <= k < |s|
        ensures IsSpace(s[k]) || IsDigit(s[k]) || s[k] == '_' || s[k] == '+' || s[k] == '-'
      {
        if k < i {
          assert s[..i][k] == s[k];
        } else if k >= j {
          assert s[j..][k - j] == s[k];
        } else {
          assert t[k - i] == s[k];
        }
      }
    }
  }

  /** The characters of a literal int() accepts: digits, underscores and a sign. */
  lemma SignedBodyChars(t: string)
    requires ParseSignedBody(t).Some?
    ensures forall k :: 0 <= k < |t| ==> IsDigit(t[k]) || t[k] == '_' || t[k] == '+' || t[k] == '-'
  {
    var b := if t[0] == '+' || t[0] == '-' then t[1..] else t;
    forall k | 0 <= k < |t|
      ensures IsDigit(t[k]) || t[k] == '_' || t[k] == '+' || t[k] == '-'
    {
      if b == t {
        assert BodyCharOk(t, k);
      } else if k > 0 {
        assert BodyCharOk(b, k - 1) && b[k - 1] == t[k];
      }
    }
  }

  function ParseSignedBody(t: string): Option<int> {
    if t != [] && (t[0] == '+' || t[0] == '-') then
      if IsIntBody(t[1..]) && |DropUnderscores(t[1..])| <= MaxIntDigits then
        var v: int := BodyValue(t[1..]);
        Some(if t[0] == '-' then -v else v)
      else
        None
    else if IsIntBody(t) && |DropUnderscores(t)| <= MaxIntDigits then
      Some(BodyValue(t))
    else
      None
  }

  lemma DigitsAreIntBody(b: string)
    requires |b| > 0 && AllDigits(b)
    ensures IsIntBody(b) && BodyValue(b) == DigitsValue(b)
  {
    forall i | 0 <= i < |b|
      ensures BodyCharOk(b, i)
    {
      assert IsDigit(b[i]);
    }
  }

  lemma ParseNegativeLiteral(t: string)
    requires |t| > 1 && t[0] == '-' && AllDigits(t[1..]) && |t| - 1 <= MaxIntDigits
    ensures ParseSignedBody(t) == Some(-(DigitsValue(t[1..]) as int))
  {
    DigitsAreIntBody(t[1..]);
  }

  lemma ParseNaturalLiteral(t: string)
    requires |t| > 0 && AllDigits(t) && |t| <= MaxIntDigits
    ensures ParseSignedBody(t) == Some(DigitsValue(t))
  {
    DigitsAreIntBody(t);
    assert IsDigit(t[0]);
  }

  lemma ParseIntOfClean(s: string)
    requires s == [] || (!IsSpace(s[0]) && !IsSpace(s[|s| - 1]))
    ensures ParseInt(s) == ParseSignedBody(s)
  {
    StripClean(s);
  }

  /** A run of digits is an int() literal exactly when it is within the
      digit limit, leading zeros counted. */
  lemma ParseIntDigitLimit(t: string)
    requires |t| > 0 && AllDigits(t)
    ensures ParseInt(t).Some? <==> |t| <= MaxIntDigits
    ensures ParseInt(t).Some? ==> ParseInt(t).value == DigitsValue(t)
  {
    assert IsDigit(t[0]) && IsDigit(t[|t| - 1]);
    StripClean(t);
    DigitsAreIntBody(t);
  }

  lemma ParseSignedBodyOfNegative(n: nat)
    requires n > 0 && |NatToString(n)| <= MaxIntDigits
    ensures ParseSignedBody("-" + NatToString(n)) == Some(-(n as int))
  {
    var t := NatToString(n);
    assert ("-" + t)[1..] == t;
    ParseNegativeLiteral("-" + t);
    NatToStringRoundTrip(n);
  }

  lemma ParseSignedBodyOfNatural(n: nat)
    requires |NatToString(n)| <= MaxIntDigits
    ensures ParseSignedBody(NatToString(n)) == Some(n)
  {
    ParseNaturalLiteral(NatToString(n));
    NatToStringRoundTrip(n);
  }

  /** The digits str() writes for n, without the sign. */
  function Magnitude(n: int): nat {
    if n < 0 then -n else n
  }

  lemma ParseSignedBodyOfIntToString(n: int)
    requires |NatToString(Magnitude(n))| <= MaxIntDigits
    ensures ParseSignedBody(IntToString(n)) == Some(n)
  {
    if n < 0 {
      ParseSignedBodyOfNegative(-n);
    } else {
      ParseSignedBodyOfNatural(n);
    }
  }

  /** int(str(n)) == n for every n whose digits are within the limit (beyond
      it str() itself raises). */
  lemma ParseIntOfIntToString(n: int)
    requires |NatToString(Magnitude(n))| <= MaxIntDigits
    ensures ParseInt(IntToString(n)) == Some(n)
  {
    ParseIntOfClean(IntToString(n));
    ParseSignedBodyOfIntToString(n);
  }

  /** A numeral with more digits than the limit is refused, sign or not. */
  lemma ParseIntOfLongIntToString(n: int)
    requires |NatToString(Magnitude(n))| > MaxIntDigits
    ensures ParseInt(IntToString(n)) == None
  {
    var t := IntToString(n);
    var d := NatToString(Magnitude(n));
    ParseIntOfClean(t);
    if n < 0 {
      assert t[1..] == d;
    }
  }

  /** 10^k. */
  function Pow10(k: nat): nat {
    if k == 0 then 1 else 10 * Pow10(k - 1)
  }

  /** A number below 10^k has at most k digits. */
  lemma {:induction false} NatToStringLength(n: nat, k: nat)
    requires 1 <= k && n < Pow10(k)
    ensures |NatToString(n)| <= k
    decreases k
  {
    if n >= 10 {
      assert k != 1;
      assert n / 10 < Pow10(k - 1);
      NatToStringLength(n / 10, k - 1);
    }
  }
}
