/** Option, the errors of the formula engine, and the `Result` every stage returns. */
module Results {

  datatype Option<+T> = None | Some(value: T)

  /** The engine's `Result<T, String>`: a value or one of the engine's errors. */
  datatype Result<+T> = Ok(value: T) | Err(error: Error) {

    predicate IsFailure() {
      Err?
    }

    function PropagateFailure<U>(): Result<U>
      requires Err?
    {
      Err(error)
    }

    function Extract(): T
      requires Ok?
    {
      value
    }
  }

  /**
    The errors of the engine. The first three stand for the errors of the cursor's
    primitive operations, whose wording is not part of this model; `found` is the
    character the cursor stood on (`None` at the end of the input).
   */
  datatype Error =
    | UnexpectedChar(expected: char, found: Option<char>)   // skip_char
    | UnexpectedWord(word: string, found: Option<char>)     // skip_word
    | NotNumerical(found: Option<char>)                     // pop_next_char_numerical
    | ExpectedOperator(found: Option<char>)                 // no operator symbol
    | ExpectedFunctionName(found: Option<char>)             // no builtin function name
    | IntegerTooLarge                                       // str::parse::<i64> overflow
    | NoParserMatched                                       // the empty `last_err` a dispatch starts with
    | InputIsEmpty                                          // "Input is empty."
    | ErroneousBinaryOperation                              // "Erroneous binary operation attempted"
}
