/**
  The rules of src/parsing_function.rs as the source runs them: methods that move a
  shared cursor, the dispatcher that saves and restores it, the `loop`s of the two
  recursive rules and the `while let` of `parse_integer`. Each method is proved to
  return what its function in `Grammar` describes and to leave the cursor where that
  function says; the dispatcher also promises to leave the cursor where it found it
  when every rule fails.
 */
module Rules {
  import opened Results
  import opened Tokens
  import opened Cursor
  import Grammar

  /** What a rule run on the cursor amounts to: its result and where the cursor ended. */
  function Outcome<T>(r: Result<T>, offset: nat): Grammar.Reply<T>
  {
    match r
    case Ok(v) => Grammar.Parsed(v, offset)
    case Err(e) => Grammar.Failed(e)
  }

  method ParseTime(input: ParseInput) returns (r: Result<FuncNode>)
    requires input.Valid()
    modifies input
    ensures input.Valid()
    ensures Outcome(r, input.offset) == Grammar.ParseTime(input.text, old(input.offset))
  {
    var skipped := input.SkipWord("time");
    if skipped.Err? {
      return Err(skipped.error);
    }
    return Ok(Time);
  }

  method ParsePointX(input: ParseInput) returns (r: Result<FuncNode>)
    requires input.Valid()
    modifies input
    ensures input.Valid()
    ensures Outcome(r, input.offset) == Grammar.ParsePointX(input.text, old(input.offset))
  {
    var skipped := input.SkipChar('x');
    if skipped.Err? {
      return Err(skipped.error);
    }
    return Ok(PointX);
  }

  method ParsePointY(input: ParseInput) returns (r: Result<FuncNode>)
    requires input.Valid()
    modifies input
    ensures input.Valid()
    ensures Outcome(r, input.offset) == Grammar.ParsePointY(input.text, old(input.offset))
  {
    var skipped := input.SkipChar('y');
    if skipped.Err? {
      return Err(skipped.error);
    }
    return Ok(PointY);
  }

  method ParsePointZ(input: ParseInput) returns (r: Result<FuncNode>)
    requires input.Valid()
    modifies input
    ensures input.Valid()
    ensures Outcome(r, input.offset) == Grammar.ParsePointZ(input.text, old(input.offset))
  {
    var skipped := input.SkipChar('z');
    if skipped.Err? {
      return Err(skipped.error);
    }
    return Ok(PointZ);
  }

  method ParseBinaryOperationSymbol(input: ParseInput) returns (r: Result<FuncNode>)
    requires input.Valid()
    modifies input
    ensures input.Valid()
    ensures Outcome(r, input.offset) == Grammar.ParseBinaryOperationSymbol(input.text, old(input.offset))
  {
    var plus := input.SkipChar('+');
    if plus.Ok? {
      return Ok(BinaryOperationSymbol(Addition));
    }
    var times := input.SkipChar('*');
    if times.Ok? {
      return Ok(BinaryOperationSymbol(Multiplication));
    }
    var minus := input.SkipChar('-');
    if minus.Ok? {
      return Ok(BinaryOperationSymbol(Subtraction));
    }
    var slash := input.SkipChar('/');
    if slash.Ok? {
      return Ok(BinaryOperationSymbol(Division));
    }
    var caret := input.SkipChar('^');
    if caret.Ok? {
      return Ok(BinaryOperationSymbol(Exponentiation));
    }
    return Err(ExpectedOperator(input.GetNextChar()));
  }

  /** `parse_integer`: the first digit, then a `while let` collecting the rest. */
  method ParseInteger(input: ParseInput) returns (r: Result<FuncNode>)
    requires input.Valid()
    modifies input
    ensures input.Valid()
    ensures Outcome(r, input.offset) == Grammar.ParseInteger(input.text, old(input.offset))
  {
    ghost var start := input.offset;
    var firstChar := input.PopNextCharNumerical();
    if firstChar.Err? {
      return Err(firstChar.error);
    }
    var output := [firstChar.value];
    while true
      invariant input.Valid() && start < input.offset
      invariant output == input.text[start..input.offset]
      invariant DigitRunEnd(input.text, input.offset) == DigitRunEnd(input.text, start)
      decreases |input.text| - input.offset
    {
      var nextChar := input.PopNextCharNumerical();
      if nextChar.Err? {
        break;
      }
      output := output + [nextChar.value];
    }
    assert input.offset == DigitRunEnd(input.text, start);
    var value := Grammar.ParseI64(output);
    if value.Err? {
      return Err(value.error);
    }
    return Ok(Int(value.value));
  }

  /** Runs one rule of the registry on the cursor. */
  method ApplyRule(rule: Grammar.Rule, input: ParseInput) returns (r: Result<FuncNode>)
    requires input.Valid()
    modifies input
    ensures input.Valid()
    ensures Outcome(r, input.offset) == Grammar.ApplyRule(rule, input.text, old(input.offset))
    decreases |input.text| - input.offset, 1
  {
    match rule {
      case BuiltinFuncRule => r := ParseBuiltinFunc(input);
      case ParenthesesRule => r := ParseParentheses(input);
      case BinaryOperationSymbolRule => r := ParseBinaryOperationSymbol(input);
      case TimeRule => r := ParseTime(input);
      case PointXRule => r := ParsePointX(input);
      case PointYRule => r := ParsePointY(input);
      case PointZRule => r := ParsePointZ(input);
      case IntegerRule => r := ParseInteger(input);
    }
  }

  /**
    `try_parsers_with_list`: save the cursor, then try the rules in registry order,
    skipping spaces before each and restoring the save point after each failure.
   */
  method TryParsersWithList(input: ParseInput) returns (r: Result<FuncNode>)
    requires input.Valid()
    modifies input
    ensures input.Valid()
    ensures Outcome(r, input.offset) == Grammar.ParseOne(input.text, old(input.offset))
    ensures r.Err? ==> input.offset == old(input.offset)
    decreases |input.text| - input.offset, 2
  {
    var savePoint := input.CreateSavePoint();
    var lastErr := NoParserMatched;
    for k := 0 to |Grammar.Registry|
      invariant input.Valid() && input.offset == savePoint
      invariant Grammar.ParseOne(input.text, savePoint) == Grammar.TryRules(input.text, savePoint, k, lastErr)
    {
      input.SkipSpacesAndNewlines();
      var result := ApplyRule(Grammar.Registry[k], input);
      match result {
        case Ok(node) =>
          return Ok(node);
        case Err(err) =>
          lastErr := err;
          input.LoadSavePoint(savePoint);
      }
    }
    return Err(lastErr);
  }

  /**
    The `loop` both recursive rules run after their `(`: skip spaces, dispatch one token
    and keep it; when the dispatch fails, a `)` ends the list, and otherwise the
    dispatch's error is the rule's error.
   */
  method ParseInteriorTokens(input: ParseInput) returns (r: Result<seq<FuncNode>>)
    requires input.Valid()
    modifies input
    ensures input.Valid()
    ensures Outcome(r, input.offset) == Grammar.ParseInterior(input.text, old(input.offset), [])
    decreases |input.text| - input.offset, 3
  {
    ghost var start := input.offset;
    var output: seq<FuncNode> := [];
    while true
      invariant input.Valid() && start <= input.offset
      invariant Grammar.ParseInterior(input.text, start, []) == Grammar.ParseInterior(input.text, input.offset, output)
      decreases |input.text| - input.offset
    {
      input.SkipSpacesAndNewlines();
      var inner := TryParsersWithList(input);
      match inner {
        case Ok(value) =>
          output := output + [value];
        case Err(e) =>
          var close := input.SkipChar(')');
          if close.Ok? {
            return Ok(output);
          } else {
            return Err(e);
          }
      }
    }
  }

  /** `parse_builtin_func`: the name, exactly three characters, `(`, the interior tokens. */
  method ParseBuiltinFunc(input: ParseInput) returns (r: Result<FuncNode>)
    requires input.Valid()
    modifies input
    ensures input.Valid()
    ensures Outcome(r, input.offset) == Grammar.ParseBuiltinFunc(input.text, old(input.offset))
    decreases |input.text| - input.offset, 0
  {
    ghost var start := input.offset;
    var funcType;
    if input.MatchWordCi("sin") {
      funcType := Sin;
    } else if input.MatchWordCi("cos") {
      funcType := Cos;
    } else if input.MatchWordCi("tan") {
      funcType := Tan;
    } else if input.MatchWordCi("abs") {
      funcType := Abs;
    } else {
      return Err(ExpectedFunctionName(input.GetNextChar()));
    }
    input.SkipXChars(3);
    var open := input.SkipChar('(');
    if open.Err? {
      return Err(open.error);
    }
    var args := ParseInteriorTokens(input);
    if args.Err? {
      return Err(args.error);
    }
    return Ok(BuiltinFunction(funcType, args.value));
  }

  /** `parse_parentheses`: `(`, then the interior tokens. */
  method ParseParentheses(input: ParseInput) returns (r: Result<FuncNode>)
    requires input.Valid()
    modifies input
    ensures input.Valid()
    ensures Outcome(r, input.offset) == Grammar.ParseParentheses(input.text, old(input.offset))
    decreases |input.text| - input.offset, 0
  {
    var open := input.SkipChar('(');
    if open.Err? {
      return Err(open.error);
    }
    var nodes := ParseInteriorTokens(input);
    if nodes.Err? {
      return Err(nodes.error);
    }
    return Ok(Parentheses(nodes.value));
  }
}
