/** Optional values, typed validation errors and the result type that replaces
    the engine's raised ValueErrors. */
module Results {

  datatype Option<+T> = None | Some(value: T)

  /** One constructor per distinct ValueError the dice engine raises. */
  datatype DiceError =
    | InvalidDiceNotation(text: string)        // a term that does not match ^(\d*)d(\d+)$
    | DiceCountOutOfRange                      // dice count outside 1..100
    | DiceSidesOutOfRange                      // dice sides outside 1..1000
    | InvalidToken(token: string)              // neither a dice term nor an integer
    | ModifierBeforeDice                       // "+3 2d6": the modifier precedes the dice
    | RepeatCountOutOfRange                    // leading repeat count outside 1..20
    | InvalidNotationAfterCount(rest: string)  // "5 abc": nothing usable after the count
    | InvalidNotation(args: string)            // a command of no recognised shape
    | InvalidCount(args: string)               // character-stats count not an integer in 1..20
    | DigitLimitExceeded                       // int() of a numeral over the 4300-digit limit, uncaught

  datatype Result<+T> = Ok(value: T) | Err(error: DiceError)
}
