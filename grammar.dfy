/**
  The formula grammar of src/parsing_function.rs as functions of the text and the
  offset a rule starts at. A rule either succeeds with a token and the offset after it,
  or fails with an error; where the cursor stands after a failure does not matter,
  because every caller restores a save point or gives up.

  The registry the source assembles at run time (a locked list of boxed closures that
  the function-call and group rules close over) is the fixed list `Registry`, and the
  knot it ties is ordinary mutual recursion: `ParseOne` tries the rules in order, and
  the two recursive rules call `ParseOne` for their interior tokens. Every rule that
  succeeds consumes at least one character, which is what makes this recursion, the
  interior loops and the top-level loop terminate.
 */
module Grammar {
  import opened Results
  import opened Tokens
  import opened Cursor

  /** The outcome of a rule started at some offset. */
  datatype Reply<+T> = Parsed(value: T, next: nat) | Failed(error: Error)

  /** A successful reply consumed at least one character and stays within the text. */
  predicate Advances<T>(r: Reply<T>, s: string, i: nat)
  {
    r.Parsed? ==> i < r.next <= |s|
  }

  // ---------------------------------------------------------------------------
  // Terminal rules.

  /** `parse_time`. */
  function ParseTime(s: string, i: nat): (r: Reply<FuncNode>)
    requires i <= |s|
    ensures Advances(r, s, i)
  {
    if StartsWith(s, i, "time") then Parsed(Time, i + 4) else Failed(UnexpectedWord("time", Peek(s, i)))
  }

  /** The shape shared by `parse_point_x`, `parse_point_y` and `parse_point_z`. */
  function ParseLetter(s: string, i: nat, c: char, node: FuncNode): (r: Reply<FuncNode>)
    requires i <= |s|
    ensures Advances(r, s, i)
  {
    if i < |s| && s[i] == c then Parsed(node, i + 1) else Failed(UnexpectedChar(c, Peek(s, i)))
  }

  function ParsePointX(s: string, i: nat): (r: Reply<FuncNode>)
    requires i <= |s|
    ensures Advances(r, s, i)
  {
    ParseLetter(s, i, 'x', PointX)
  }

  function ParsePointY(s: string, i: nat): (r: Reply<FuncNode>)
    requires i <= |s|
    ensures Advances(r, s, i)
  {
    ParseLetter(s, i, 'y', PointY)
  }

  function ParsePointZ(s: string, i: nat): (r: Reply<FuncNode>)
    requires i <= |s|
    ensures Advances(r, s, i)
  {
    ParseLetter(s, i, 'z', PointZ)
  }

  /** `parse_binary_operation_symbol`: the symbols are tried in the order `+ * - / ^`. */
  function ParseBinaryOperationSymbol(s: string, i: nat): (r: Reply<FuncNode>)
    requires i <= |s|
    ensures Advances(r, s, i)
  {
    if i < |s| && s[i] == '+' then Parsed(BinaryOperationSymbol(Addition), i + 1)
    else if i < |s| && s[i] == '*' then Parsed(BinaryOperationSymbol(Multiplication), i + 1)
    else if i < |s| && s[i] == '-' then Parsed(BinaryOperationSymbol(Subtraction), i + 1)
    else if i < |s| && s[i] == '/' then Parsed(BinaryOperationSymbol(Division), i + 1)
    else if i < |s| && s[i] == '^' then Parsed(BinaryOperationSymbol(Exponentiation), i + 1)
    else Failed(ExpectedOperator(Peek(s, i)))
  }

  predicate AllDigits(ds: string)
  {
    forall k :: 0 <= k < |ds| ==> IsDigit(ds[k])
  }

  function DigitValue(c: char): nat
    requires IsDigit(c)
  {
    c as int - '0' as int
  }

  /** The base-10 value of a string of digits. */
  function DigitsValue(ds: string): nat
    requires AllDigits(ds)
  {
    if ds == [] then 0 else DigitsValue(ds[..|ds| - 1]) * 10 + DigitValue(ds[|ds| - 1])
  }

  /** Ten to the power `n`. */
  function Pow10(n: nat): (r: nat)
    ensures r >= 1
  {
    if n == 0 then 1 else 10 * Pow10(n - 1)
  }

  lemma {:induction false} PowMonotone(m: nat, n: nat)
    ensures m <= n ==> Pow10(m) <= Pow10(n)
    decreases n
  {
    if m < n {
      PowMonotone(m, n - 1);
    }
  }

  lemma Pow10OfEighteen()
    ensures Pow10(18) == 1_000_000_000_000_000_000 && Pow10(19) == 10_000_000_000_000_000_000
  {
    assert Pow10(1) == 10;
    assert Pow10(2) == 100;
    assert Pow10(3) == 1000;
    assert Pow10(4) == 10000;
    assert Pow10(5) == 100000;
    assert Pow10(6) == 1000000;
    assert Pow10(7) == 10000000;
    assert Pow10(8) == 100000000;
    assert Pow10(9) == 1000000000;
    assert Pow10(10) == 10000000000;
    assert Pow10(11) == 100000000000;
    assert Pow10(12) == 1000000000000;
    assert Pow10(13) == 10000000000000;
    assert Pow10(14) == 100000000000000;
    assert Pow10(15) == 1000000000000000;
    assert Pow10(16) == 10000000000000000;
    assert Pow10(17) == 100000000000000000;
    assert Pow10(18) == 1000000000000000000;
    assert Pow10(19) == 10000000000000000000;
  }

  /** `n` digits read below `10^n`, and at least `10^(n-1)` when the first is not `0`. */
  lemma {:induction false} DigitsValueBounds(ds: string)
    requires AllDigits(ds)
    ensures DigitsValue(ds) < Pow10(|ds|)
    ensures ds != [] && ds[0] != '0' ==> DigitsValue(ds) >= Pow10(|ds| - 1)
  {
    if ds != [] {
      var init := ds[..|ds| - 1];
      DigitsValueBounds(init);
      if |ds| > 1 {
        assert init[0] == ds[0];
      }
    }
  }

  /** Up to 18 digits read at most `I64_MAX`; 20 or more without a leading `0` read more. */
  lemma DigitCountBounds(ds: string)
    requires ds != [] && AllDigits(ds)
    ensures |ds| <= 18 ==> DigitsValue(ds) <= I64_MAX
    ensures |ds| >= 20 && ds[0] != '0' ==> DigitsValue(ds) > I64_MAX
  {
    DigitsValueBounds(ds);
    Pow10OfEighteen();
    PowMonotone(|ds|, 18);
    PowMonotone(19, |ds| - 1);
  }

  /**
    `str::parse::<i64>` on a non-empty run of digits: the base-10 value when it fits,
    and otherwise the overflow error. Up to 18 digits always fit; 20 digits or more
    without a leading `0` always overflow.
   */
  function ParseI64(ds: string): (r: Result<I64>)
    requires ds != [] && AllDigits(ds)
    ensures r.Ok? <==> DigitsValue(ds) <= I64_MAX
    ensures r.Ok? ==> r.value == DigitsValue(ds) && r.value >= 0
    ensures r.Err? ==> r.error == IntegerTooLarge
    ensures |ds| <= 18 ==> r.Ok?
    ensures |ds| >= 20 && ds[0] != '0' ==> r.Err?
  {
    DigitCountBounds(ds);
    var v := DigitsValue(ds);
    if v <= I64_MAX then Ok(v) else Err(IntegerTooLarge)
  }

  /** `parse_integer`: one digit, then every digit that follows, read as an `i64`. */
  function ParseInteger(s: string, i: nat): (r: Reply<FuncNode>)
    requires i <= |s|
    ensures Advances(r, s, i)
  {
    var e := DigitRunEnd(s, i);
    if e == i then Failed(NotNumerical(Peek(s, i)))
    else
      match ParseI64(s[i..e])
      case Ok(v) => Parsed(Int(v), e)
      case Err(err) => Failed(err)
  }

  // ---------------------------------------------------------------------------
  // The registry and the recursive rules.

  /** The rules, in the order `FormulaParser::new` leaves them in the list. */
  datatype Rule =
    | BuiltinFuncRule
    | ParenthesesRule
    | BinaryOperationSymbolRule
    | TimeRule
    | PointXRule
    | PointYRule
    | PointZRule
    | IntegerRule

  /** The list `FormulaParser::new` builds, in order. */
  const Registry: seq<Rule> :=
    [BuiltinFuncRule, ParenthesesRule, BinaryOperationSymbolRule, TimeRule,
     PointXRule, PointYRule, PointZRule, IntegerRule]

  /** The terminal rules the list starts with, before the two recursive rules exist. */
  const TerminalRules: seq<Rule> :=
    [BinaryOperationSymbolRule, TimeRule, PointXRule, PointYRule, PointZRule, IntegerRule]

  /** `Vec::insert`: `x` at index `k`, the elements from `k` on shifted one place up. */
  function Insert<T>(xs: seq<T>, k: nat, x: T): (r: seq<T>)
    requires k <= |xs|
    ensures |r| == |xs| + 1 && r[k] == x
    ensures forall j :: 0 <= j < k ==> r[j] == xs[j]
    ensures forall j :: k <= j < |xs| ==> r[j + 1] == xs[j]
  {
    xs[..k] + [x] + xs[k..]
  }

  /**
    The function name at `i`, matched case-insensitively in the order sin, cos, tan, abs:
    a name found is spelled there, and no name is found only when none is spelled there.
   */
  function FunctionName(s: string, i: nat): (r: Option<FunctionType>)
    ensures r.Some? ==> MatchesCi(s, i, Name(r.value))
    ensures r.None? <==> forall f :: !MatchesCi(s, i, Name(f))
  {
    if MatchesCi(s, i, "sin") then Some(Sin)
    else if MatchesCi(s, i, "cos") then Some(Cos)
    else if MatchesCi(s, i, "tan") then Some(Tan)
    else if MatchesCi(s, i, "abs") then Some(Abs)
    else None
  }

  /** Runs one rule of the registry at `i`. */
  function ApplyRule(rule: Rule, s: string, i: nat): (r: Reply<FuncNode>)
    requires i <= |s|
    ensures Advances(r, s, i)
    decreases |s| - i, 1, 0
  {
    match rule
    case BuiltinFuncRule => ParseBuiltinFunc(s, i)
    case ParenthesesRule => ParseParentheses(s, i)
    case BinaryOperationSymbolRule => ParseBinaryOperationSymbol(s, i)
    case TimeRule => ParseTime(s, i)
    case PointXRule => ParsePointX(s, i)
    case PointYRule => ParsePointY(s, i)
    case PointZRule => ParsePointZ(s, i)
    case IntegerRule => ParseInteger(s, i)
  }

  /**
    `try_parsers_with_list` from the rule at index `k` on: the cursor is restored to the
    save point `i` after every failure and spaces are skipped before every attempt, so
    each rule starts at `SkipSpaces(s, i)`. The first success is the reply; when every
    rule has failed, the error of the last one is.
   */
  function TryRules(s: string, i: nat, k: nat, lastErr: Error): (r: Reply<FuncNode>)
    requires i <= |s| && k <= |Registry|
    ensures Advances(r, s, i)
    decreases |s| - i, 2, |Registry| - k
  {
    if k == |Registry| then Failed(lastErr)
    else
      match ApplyRule(Registry[k], s, SkipSpaces(s, i))
      case Parsed(node, next) => Parsed(node, next)
      case Failed(e) => TryRules(s, i, k + 1, e)
  }

  /** One token: the dispatcher over the whole registry (`main_parser`). */
  function ParseOne(s: string, i: nat): (r: Reply<FuncNode>)
    requires i <= |s|
    ensures Advances(r, s, i)
    decreases |s| - i, 3, 0
  {
    TryRules(s, i, 0, NoParserMatched)
  }

  /**
    The loop both recursive rules run after their `(`: skip spaces, parse one token and
    keep it; when no token parses, a `)` ends the list, and otherwise the token's error
    is the rule's error. `acc` holds the tokens collected so far.
   */
  function ParseInterior(s: string, p: nat, acc: seq<FuncNode>): (r: Reply<seq<FuncNode>>)
    requires p <= |s|
    ensures Advances(r, s, p)
    ensures r.Parsed? ==> s[r.next - 1] == ')' && |r.value| >= |acc| && r.value[..|acc|] == acc
    decreases |s| - p, 4, 0
  {
    var q := SkipSpaces(s, p);
    match ParseOne(s, q)
    case Parsed(node, next) => ParseInterior(s, next, acc + [node])
    case Failed(e) => if q < |s| && s[q] == ')' then Parsed(acc, q + 1) else Failed(e)
  }

  /** `parse_builtin_func`: a name, exactly three characters, `(`, the interior tokens. */
  function ParseBuiltinFunc(s: string, i: nat): (r: Reply<FuncNode>)
    requires i <= |s|
    ensures Advances(r, s, i)
    ensures r.Parsed? ==> r.value.BuiltinFunction? && FunctionName(s, i) == Some(r.value.func)
    decreases |s| - i, 0, 0
  {
    match FunctionName(s, i)
    case None => Failed(ExpectedFunctionName(Peek(s, i)))
    case Some(f) =>
      if !(i + 3 < |s| && s[i + 3] == '(') then Failed(UnexpectedChar('(', Peek(s, i + 3)))
      else
        match ParseInterior(s, i + 4, [])
        case Parsed(args, next) => Parsed(BuiltinFunction(f, args), next)
        case Failed(e) => Failed(e)
  }

  /** `parse_parentheses`: `(`, then the interior tokens. */
  function ParseParentheses(s: string, i: nat): (r: Reply<FuncNode>)
    requires i <= |s|
    ensures Advances(r, s, i)
    ensures r.Parsed? ==> r.value.Parentheses? && s[i] == '(' && s[r.next - 1] == ')'
    decreases |s| - i, 0, 0
  {
    if !(i < |s| && s[i] == '(') then Failed(UnexpectedChar('(', Peek(s, i)))
    else
      match ParseInterior(s, i + 1, [])
      case Parsed(nodes, next) => Parsed(Parentheses(nodes), next)
      case Failed(e) => Failed(e)
  }

  // ---------------------------------------------------------------------------
  // The facade.

  /** What `FormulaParser::parse` returns, as a value instead of a closure. */
  datatype CompiledFormula = Evaluates(nodes: seq<FuncNode>) | AlwaysFails(error: Error)

  /** The loop of `parse`: dispatch until the text is finished or a dispatch fails. */
  function ParseFrom(s: string, i: nat, acc: seq<FuncNode>): (f: CompiledFormula)
    requires i <= |s|
    ensures f.Evaluates? ==> |f.nodes| >= |acc| && f.nodes[..|acc|] == acc
    ensures f.Evaluates? ==> |f.nodes| <= |acc| + (|s| - i)
    ensures f.Evaluates? && i < |s| ==> |f.nodes| > |acc|
    decreases |s| - i
  {
    if i == |s| then Evaluates(acc)
    else
      match ParseOne(s, i)
      case Parsed(node, next) => ParseFrom(s, next, acc + [node])
      case Failed(e) => AlwaysFails(e)
  }

  /**
    `FormulaParser::parse`: a formula that parses has at most one token per character,
    and no token only when the text is empty.
   */
  function Compile(text: string): (f: CompiledFormula)
    ensures f.Evaluates? ==> |f.nodes| <= |text|
    ensures f.Evaluates? ==> (f.nodes == [] <==> text == [])
  {
    ParseFrom(text, 0, [])
  }
}
