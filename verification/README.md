# Dice engine model

A Dafny model of the dice engine of a tabletop-RPG chat bot (`dice.py`). The
engine turns free text such as `2d6+3`, `+5`, `10 1d20` or `d8 - 1` into
roll results. It does this in five parts:

- a term parser, `parse_dice_only`, for `^(\d*)d(\d+)$` with range checks;
- one tokeniser, shared by `roll_dice` and `roll_dmg`, with a pending sign;
- two evaluators over the tokens:
  - per-die mode (`roll_dice`): one net flat modifier is added to every die;
  - summed mode (`roll_dmg`): signed pool sums and signed flat values are added up;
- the advantage and disadvantage selectors, the 4d6-drop-lowest stat
  generator, and the two command parsers;
- the text formatting of results, including the d20 rule: a natural 20 is
  bold and keeps the modifier, and a natural 1 reads `Nat1` without it.

Randomness enters only through `roll_single_die`. The model replaces it with
a draw stream `draws: nat -> nat`: die number k shows `1 + draws(k) % sides`.
In one call, the dice are numbered in token order. A stat block i uses draws
4i to 4i+3. Advantage and disadvantage take two streams, one per roll.
Exceptions become the `Result`/`DiceError` datatypes.

Modules, one file each:

- `Results`: Option, Result and the error kinds.
- `Text`: the parts of Python's string handling the engine relies on:
  - `isspace`, `strip` and `split()`;
  - `replace(" ", "")`;
  - `int()` and `str()`;
  - ASCII `lower` and `upper`.
- `DieSource`: the die oracle and sums.
- `Notation`: `parse_dice_only` and `_get_sides`.
- `Tokenizer`: spaces removed, signs padded, split, tokens classified.
- `Evaluator`: `roll_dice` and `roll_dmg` as folds over the classified
  tokens. Their results are stated against reference sums over token positions.
- `Selector`: the advantage and disadvantage selectors.
- `Stats`: `roll_character_stats`.
- `Commands`: `parse_roll_command` and `parse_char_command`.
- `Format`: `_format_roll`, `RollResult.format` and `DmgResult.format`.

Behaviour of the code that the model keeps, and how:

- **When tokens are checked.** The code rolls each dice term as it
  reaches it, so a bad token late in the expression comes after earlier
  draws. The exception discards those rolls. The model classifies every
  token first and rolls only if all are valid. This gives the same result
  or error, and the first bad token in order decides the error.
- **A modifier before dice.** `+3d6` and `+3 2d6` both match
  `^([+-])\s*(\d+)(.*)$` with a rest holding a `d`. Both give the
  "put dice before the modifier" error.
- **The implicit count.** The rewrite turns a `d` or `D` that has no digit
  before it into a lower-case `1d`.
- **A signed integer.** The model's `^[+-]\d+$` test does not let `$` sit
  before a final newline. Every string the code tests has been stripped or
  split first, so no such newline can reach it.
- **Empty input.** Empty or all-whitespace text gives (1, `1d20`).
- **The digit limit of `int()`.** CPython refuses to convert a numeral of
  more than 4300 digits. Leading zeros count toward the limit and
  underscores do not. Where the code catches the `ValueError`, the result
  is its usual error: `Invalid token` for a flat token and `Invalid count`
  for a stats count. Where the code does not catch it (the count or side
  count of a dice term, the repeat count of a roll command), the model
  returns `DigitLimitExceeded`.

## Model

| member | source | states |
|---|---|---|
| DieSource.RollSingleDie | dice.py:7-9 | every face lies in 1..sides |
| DieSource.EveryFaceReachable | dice.py:7-9 | every face 1..sides comes up for some draw, so the oracle excludes no outcome |
| DieSource.RollPool | dice.py:150-151 | a pool has exactly `count` dice, each in 1..sides |
| DieSource.SumAddToEach | dice.py:163-165 | adding m to every die adds m once per die to the sum |
| DieSource.SumBounds | dice.py:253 | n values each in [lo, hi] sum to between n*lo and n*hi |
| Text.TrimStart | dice.py:285 | `lstrip()` result is empty exactly when the text is all whitespace, and otherwise starts with a non-space |
| Text.TrimStartIsSuffix | dice.py:285 | `lstrip()` drops a whitespace prefix and keeps the rest unchanged |
| Text.TrimEndIsPrefix | dice.py:106 | `rstrip()` drops a whitespace suffix and keeps the rest unchanged |
| Text.Strip | dice.py:106 | `strip()` result is empty iff the text is all whitespace; otherwise it begins and ends with a non-space |
| Text.StripIsInfix | dice.py:270 | `strip()` returns one contiguous slice, with only whitespace cut on each side |
| Text.StripKeeps | dice.py:290 | every character `strip()` returns was in its input |
| Text.StripClean | dice.py:141 | text with no whitespace at either end is unchanged by `strip()` |
| Text.RemoveSpaces | dice.py:130 | `replace(" ", "")` leaves no space and never lengthens the text |
| Text.RemoveSpacesOnlyKeeps | dice.py:130 | only characters of the input, and never a space, survive the replace |
| Text.RemoveSpacesKeeps | dice.py:278 | every non-space character survives the replace |
| Text.RemoveSpacesOfClean | dice.py:312 | the replace leaves text without spaces unchanged |
| Text.RemoveSpacesThenWhitespace | dice.py:130-134 | removing spaces first does not change which non-whitespace characters `split()` sees |
| Text.SplitFrom | dice.py:134 | `split()` yields non-empty, whitespace-free words whose concatenation is the text minus its whitespace |
| Text.SplitWords | dice.py:134 | the same for `split()` from the start of the text |
| Text.SplitFromCutsAtWordEnd | dice.py:134 | a word ends exactly at the first whitespace: `split()` neither joins text across whitespace nor breaks a run of non-whitespace |
| Text.SplitWordsStep | dice.py:298 | leading whitespace is dropped, and a leading non-space starts a word that is the whole first run, followed by the words of the rest; with the two clauses above this fixes every cut point |
| Text.SplitWordsShape | dice.py:298-299 | on text starting with a non-space, `tokens[0]` is the first word and the later tokens hold the rest minus whitespace |
| Text.IntToString | dice.py:27 | `str()` of an integer is non-empty digits with a leading minus exactly when the integer is negative |
| Text.NatToStringRoundTrip | dice.py:47 | `int(str(n)) == n` for naturals, digit by digit |
| Text.ParseInt | dice.py:156 | `int()` refuses empty or all-whitespace text, and accepts only whitespace, digits, underscores and signs |
| Text.ParseIntDigitLimit | dice.py:342 | `int()` accepts a run of digits exactly when it has at most 4300 digits, leading zeros counted, and then gives the digits' value |
| Text.ParseIntOfIntToString | dice.py:156 | `int()` reads back any integer `str()` wrote, including negatives, within the digit limit |
| Text.ParseIntOfLongIntToString | dice.py:156 | a numeral over the digit limit is refused, with or without its sign |
| Text.ParseIntOfClean | dice.py:342 | `int()` ignores surrounding whitespace only: on text without it, it parses the text itself |
| Text.ParseNegativeLiteral | dice.py:156 | `int("-<digits>")` is minus the digits' value |
| Text.ParseNaturalLiteral | dice.py:156 | `int("<digits>")` is the digits' value, leading zeros allowed |
| Text.LowerCases | dice.py:106 | `lower()` leaves no ASCII capital, changes exactly the capitals, and keeps the text equal ignoring case |
| Text.UpperCases | dice.py:49 | `upper()` leaves no ASCII lower-case letter, changes exactly those letters, and keeps the text equal ignoring case |
| Notation.ParseTerm | dice.py:107-122 | no match gives InvalidDiceNotation; a digit group over `int()`'s limit gives DigitLimitExceeded; otherwise success iff count in 1..100 and sides in 1..1000, with the matched values; a bad count gives DiceCountOutOfRange before a bad side count gives DiceSidesOutOfRange |
| Notation.ParseDiceOnly | dice.py:104-122 | the same, after `lower().strip()`: the error carries the normalised text, and any success lies in range |
| Notation.DiceShapeUnique | dice.py:107 | a term matches the pattern at one split point only |
| Notation.ParseDigitTerm | dice.py:113-115 | "<c>d<s>" written in digits parses to their values when in range |
| Notation.ParseRenderedTerm | dice.py:104-122 | `parse_dice_only(str(c) + "d" + str(s)) == (c, s)` for every in-range pair |
| Notation.ParseImplicitCount | dice.py:114 | a missing count defaults to one die: "d<s>" parses to (1, s) |
| Notation.ParseNormalTerm | dice.py:106-108 | a term already stripped and lower-case that matches parses to its count and sides |
| Notation.SidesOfNotation | dice.py:29-33 | a notation with no `d` or `D` has side count 0 |
| Notation.SearchSidesOfShape | dice.py:29-33 | on a matching term the leftmost `d(\d+)` search finds the term's own side count |
| Notation.SidesOfParsedNotation | dice.py:29-33 | `_get_sides` reads back exactly the side count `parse_dice_only` accepted for a pool's notation |
| Tokenizer.PadSigns | dice.py:133 | every sign in the padded text has a space on each side, and sign-free text is unchanged |
| Tokenizer.PadSignsKeepsText | dice.py:133 | padding signs adds only whitespace |
| Tokenizer.SplitPadded | dice.py:133-134 | padding the signs and calling `split()` is exactly a one-pass scanner that cuts at whitespace and around every sign |
| Tokenizer.ScanShape | dice.py:133-134 | every token is a lone sign or a non-empty word without signs or whitespace |
| Tokenizer.Tokenize | dice.py:130-134 | the tokens are exactly the scanner's cut of the expression without spaces; they hold its non-whitespace text, in order, and each is well formed |
| Tokenizer.ClassifyToken | dice.py:145-160 | branch order is sign, dice term (a `d` after `lower()`), integer; a dice token fails with its parse error, any other token fails with InvalidToken when `int()` refuses it |
| Tokenizer.ClassifyTokenComplete | dice.py:145-160 | every valid reading of a token is the one the classifier returns, so a token has at most one |
| Tokenizer.ClassifyTokens | dice.py:140-160 | success iff every token classifies, item i being token i's reading; otherwise the error of the first failing token |
| Tokenizer.ParseExpression | dice.py:130-160 | the items match the tokens one to one and are in range, or the error is that of the first bad token |
| Tokenizer.FlatItemsNonNegative | dice.py:155-157 | an integer token never carries a sign, so only a preceding `-` makes a flat value count negatively |
| Evaluator.DiceIndices | dice.py:152 | the dice pools come from exactly the dice tokens, in token order |
| Evaluator.FlatPartPointwise | dice.py:157 | the flat part depends only on each position's signed flat contribution |
| Evaluator.FlatPartIgnoresDice | dice.py:149-158 | the modifier is unchanged by replacing a dice term, or by flipping the sign written before one |
| Evaluator.SignIsSetNotToggled | dice.py:145-148 | an illustration of the pending-sign clause of PerDieFold and DmgFold: for the items of "5--3" both loops end at 2, where a toggling sign would give 8 |
| Evaluator.PrefixIndices | dice.py:140-153 | adding a token at the end keeps every earlier pool as it was |
| Evaluator.PerDieFold | dice.py:140-160 | after any prefix of the tokens: the pending sign is the one set by a sign token just before, else +1; the modifier is the signed flat sum; one pool per dice token, drawn in order |
| Evaluator.AddModifier | dice.py:163-165 | each modified list has its pool's shape, with every die plus the modifier |
| Evaluator.RollDice | dice.py:125-172 | errors are exactly the parse errors; otherwise each pool is rolled from its own draws and the modifier is the signed flat sum, added to every die of every pool; the expression is the input without spaces |
| Evaluator.DmgFold | dice.py:190-213 | after any prefix: the modifier is the signed flat sum; the total is the signed pool sums plus it; each component's subtotal is the sum of its rolls |
| Evaluator.RollDmg | dice.py:175-220 | errors are exactly the parse errors; otherwise modifier, total and components are as in the fold |
| Evaluator.DmgAgreesWithRoll | dice.py:140-160 | on the same draws both commands accept the same expressions and read the same pools and modifier |
| Evaluator.RollsWithinSides | dice.py:150-151 | every rolled die lies between 1 and the side count its pool's notation names |
| Evaluator.PoolSizes | dice.py:150-151 | every pool holds exactly the count its notation asks for |
| Selector.SumAllModified | dice.py:228 | summing the modified dice gives the raw dice sum plus the modifier once per die |
| Selector.GrandTotalOfRoll | dice.py:228-229 | the same, for every roll `roll_dice` returns |
| Selector.RollWithAdvantage | dice.py:223-232 | fails iff the roll fails; otherwise returns both rolls, the max of their totals, and a roll whose total it is, the first on a tie |
| Selector.RollWithDisadvantage | dice.py:235-244 | the same with the min, the first roll on a tie |
| Selector.SecondRollSucceeds | dice.py:225-226 | the second roll of the same expression cannot fail once the first succeeded |
| Selector.SelectionSymmetric | dice.py:231-232 | swapping the two rolls never changes the selected total |
| Selector.AdvantageDominates | dice.py:232 | on the same two rolls advantage is never below disadvantage |
| Stats.InsertSorted | dice.py:252 | inserting into an ascending list keeps it ascending |
| Stats.InsertMultiset | dice.py:252 | inserting adds exactly the one element |
| Stats.SortRolls | dice.py:252 | `sorted()` gives an ascending permutation with the same sum |
| Stats.SortedUnique | dice.py:252 | two ascending permutations of one list are equal, so the sort is fully determined |
| Stats.Min | dice.py:252-253 | the minimum is an element no greater than any other |
| Stats.DropLowestIsSumMinusMin | dice.py:252-253 | `sum(sorted(rolls)[1:])` is the sum minus the minimum |
| Stats.DropLowestBounds | dice.py:251-253 | three of four d6 faces total 3..18 |
| Stats.RollStat | dice.py:251-254 | a stat keeps its four d6 rolls in draw order, and its total is their sum minus their minimum, within 3..18 |
| Stats.RollCharacterStats | dice.py:247-255 | exactly six stats; stat i uses its own four draws, keeps them in order, and totals the sum minus the minimum, within 3..18 |
| Commands.RestOfLine | dice.py:287 | `(.*)$` takes the text up to its end or up to a final newline, and never a newline |
| Commands.MatchModifier | dice.py:287 | a match is a sign, a whitespace gap, at least one digit and a newline-free rest that rebuild the text |
| Commands.MatchModifierOfParts | dice.py:287-289 | the matcher reads back the sign, gap, digits and rest of any text of that shape |
| Commands.InsertImplicitCount | dice.py:329 | after the rewrite every `d` or `D` has a digit before it, and the last character survives unless it was a `d` |
| Commands.InsertImplicitCountPieces | dice.py:328-329 | the rewrite is, position by position, `1d` in place of each `d` or `D` that has no digit right before it and the character itself everywhere else, all in the original order |
| Commands.InsertImplicitCountOfD20 | dice.py:328-329 | `d20` is rewritten to `1d20` |
| Commands.InsertImplicitCountOfMixed | dice.py:328-329 | in `2d6+d4` only the die without a count gains one, giving `2d6+1d4` |
| Commands.InsertImplicitCountOfExplicit | dice.py:329 | text whose counts are already explicit is unchanged |
| Commands.InsertImplicitCountIdempotent | dice.py:329 | rewriting twice is the same as rewriting once |
| Commands.InsertImplicitCountChars | dice.py:329 | the rewrite adds only `1` and `d`, and keeps every other character (a `D` leaves a die behind) |
| Commands.InsertImplicitCountHasD | dice.py:326-330 | the rewrite keeps the expression naming a die exactly when it did before |
| Commands.ModifierOnly | dice.py:285-296 | when the modifier branch accepts, it gives one roll of an expression with a die and no spaces |
| Commands.ByFirstToken | dice.py:298-333 | whatever the first-token branches accept has 1..20 repeats and an expression with a die and no spaces; the result is InvalidNotation of the text exactly when the first word is neither all digits nor names a die |
| Commands.ParseRollCommand | dice.py:258-333 | empty or all-whitespace input gives (1, "1d20"); any success has a repeat count in 1..20 and an expression that names a die and has no spaces; the errors of each branch are stated by the lemmas below, the fall-through one by RollCommandNoShape |
| Commands.ParseViaSignedInt | dice.py:278-282 | text that is a signed integer once its spaces are gone rolls one d20 with that modifier appended |
| Commands.RollCommandModifierOnly | dice.py:280-293 | a sign, optional whitespace and digits (`+3`, `+ 3`, `-\t5`) roll one d20 with the sign and digits appended |
| Commands.RollCommandModifierBeforeDice | dice.py:285-296 | a sign and digits followed by text naming a die is refused with ModifierBeforeDice |
| Commands.FirstTokenFacts | dice.py:298-312 | the first token is the first word, and the later tokens joined without spaces are the rest without whitespace |
| Commands.RollCommandRepeat | dice.py:301-323 | a leading number over `int()`'s digit limit fails with DigitLimitExceeded, and one outside 1..20 is refused; alone it repeats a d20; otherwise the rest is a modifier for a d20, a dice expression, or InvalidNotationAfterCount |
| Commands.RollCommandNoShape | dice.py:298-333 | text that is not a signed integer, is not decided by the modifier branch, and has a first word that is neither a number nor names a die ("abc", "x 2d6", "+3 x") is refused with InvalidNotation of the stripped text |
| Commands.RollCommandDiceFirst | dice.py:325-330 | a first word holding a die gives one roll of the whole text, spaces removed and then rewritten by `InsertImplicitCount`, which writes `1d` for each die letter with no count before it (see `InsertImplicitCountPieces`) |
| Commands.RollCommandOfD20 | dice.py:263 | the documented default: `d20` is one roll of `1d20` |
| Commands.ParseCharCommand | dice.py:336-347 | empty input gives 1; otherwise success iff `int()` accepts the text and it lies in 1..20, with that value; every failure is InvalidCount of the stripped text |
| Commands.ParseCharCommandOfIntToString | dice.py:341-347 | a count written by `str()` is read back exactly and refused outside 1..20 |
| Format.SplitOfJoin | dice.py:50 | joining on a separator that occurs in no part and splitting on it again gives back the parts |
| Format.FormatRoll | dice.py:20-27 | the result is `Nat1` exactly for a natural 1 on a d20, and holds the bold marker exactly for a natural 1 or 20 on a d20 |
| Format.FormatRollResult | dice.py:35-80 | the text is empty exactly when there are no pools |
| Format.JoinChars | dice.py:48 | a joined string holds no character that is absent from the parts and the separator |
| Format.D20Rule | dice.py:35-80 | the modifier decides the layout; on a d20 a natural 1 is `Nat1` in every column, a natural 20 is bold and keeps the modifier; any other die is its plain numbers, with the modifier in the sum cell and the modified value in the result cell |
| Format.ResultColumnIsFormatRoll | dice.py:20-27 | the result column `format()` writes inline is what `_format_roll` gives for the same die |
| Format.CellsHaveNoNewline | dice.py:42-74 | no cell of either layout contains a newline |
| Format.LineHasNoNewline | dice.py:49 | a pool's line holds no newline when its notation holds none |
| Format.FormatLinesInOrder | dice.py:50 | with no pools the text is empty; otherwise, split on newlines, it is one line per pool, in pool order |
| Format.RolledTextOneLinePerPool | dice.py:35-80 | every roll `roll_dice` returns can be formatted: with no pools the text is empty, otherwise it is one line per pool, in order |
| Format.ComponentInOrder | dice.py:95-96 | a component is bracketed, and inside the brackets, split on ", ", are the rolls' numbers in the order rolled |
| Format.FormatDmgInOrder | dice.py:92-101 | damage text ends in " = " and the total; the text before it, split on " + ", is the components in pool order and then the bracketed modifier when it is not 0, and it is empty when there are neither |
| Format.FormatDmgPlain | dice.py:92-101 | damage text never holds the bold marker |

## Left out

- `bot.py` is not part of this model. It is the chat-service glue: command
  handlers, message layout, field chunking and the strike-through of the
  dropped die.
- `secrets.randbelow` is a cryptographic random source. It is replaced by
  the draw stream. The model states the range of every face and that every
  face can occur, not that the faces are uniform.
- Python's `re` engine is replaced by hand-written matchers for the six
  patterns the engine uses:
  - the term pattern `^(\d*)d(\d+)$`;
  - the side search `d(\d+)`;
  - the sign padding `([+-])`;
  - the signed integer `^[+-]\d+$`;
  - the modifier pattern `^([+-])\s*(\d+)(.*)$`;
  - the implicit-count rewrite `(?<![0-9])d`, ignoring case.
- Digits and letters outside ASCII are left out. Python's `\d`, `isdigit()`,
  `int()`, `lower()` and `upper()` also accept or map other Unicode
  characters. The whitespace set does follow Python's `str.isspace()`.
- RollDice: draws taken for pools before a later bad token are not
  modelled, because the exception throws those rolls away.
- RollDmg: the same.
- Exact Markdown punctuation carries no lemma of its own. The text is
  built in full, but only the d20 rule, the cell contents and the line
  order are proved.
- `DmgResult.format` keeps the subtotals out of its text. The model keeps
  the subtotals in the components but does not render them either.
- ParseCharCommand: the inner "Count must be 1-20" message is replaced by the
  outer `except`, exactly as in the code, so the model has one error kind.
- Notation.SidesOfNotation: `int()`'s digit limit on the side count is not
  modelled. The formatter only reads notations that `parse_dice_only`
  accepted. Those passed the same limit there (WithinDigitLimit), even when
  leading zeros make the side group longer than four digits.
- FormatRollResult, FormatDmg: `str()` refuses to write an integer of more
  than 4300 digits. That limit is not modelled, so the model renders every
  modifier and total.
- Text.ParseIntOfIntToString: holds only within the 4300-digit limit.
  Beyond it `int()` refuses the numeral, as ParseIntOfLongIntToString states.
- Notation.ParseDigitTerm, Notation.ParseNormalTerm: hold only for digit
  groups within the limit. Longer groups give DigitLimitExceeded, as
  ParseTerm states.
- Text.ParseInt: strips every `str.isspace` character around the numeral.
  For text that is all ASCII, CPython's `int()` trims only space, tab,
  newline, carriage return, vertical tab and form feed, so `int("\x1c5")`
  raises. The engine calls `int()` only on stripped or split text, where
  the two agree.
