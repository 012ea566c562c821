/**
  The facade `FormulaParser::parse`: run the dispatcher until the text is finished or a
  dispatch fails, and hand back a formula of a time and a point. A failed parse becomes
  a formula that fails with the same error at every time and point; a successful one
  substitutes the time and the point into the collected tokens and reduces them.
 */
module Formula {
  import opened Results
  import opened Tokens
  import opened Cursor
  import opened Grammar
  import opened GrammarFacts
  import opened Rendering
  import Substitution
  import Reduction
  import ReductionFacts
  import Rules
  import Spacing

  /**
    The closure `parse` returns, applied to a time and a point: a failed parse reports
    its own error, and a formula that parsed fails only with the evaluator's two errors.
   */
  function Evaluate(f: CompiledFormula, time: F32, p: Point): (r: Result<Reduction.Value>)
    ensures f.AlwaysFails? ==> r == Err(f.error)
    ensures f.Evaluates? && r.Err? ==> r.error in {InputIsEmpty, ErroneousBinaryOperation}
    ensures f == Evaluates([]) ==> r == Err(InputIsEmpty)
  {
    match f
    case Evaluates(nodes) => Reduction.TranslateNodes(nodes, time, p)
    case AlwaysFails(e) => Err(e)
  }

  /** `parse`: the `loop` over the shared cursor, proved to compute `Compile`. */
  method Parse(text: string) returns (f: CompiledFormula)
    ensures f == Compile(text)
  {
    var input := new ParseInput(text);
    var outputNodes: seq<FuncNode> := [];
    while true
      invariant input.Valid() && input.text == text
      invariant Compile(text) == ParseFrom(text, input.offset, outputNodes)
      decreases |text| - input.offset
    {
      if input.Finished() {
        return Evaluates(outputNodes);
      }
      var r := Rules.TryParsersWithList(input);
      match r {
        case Ok(node) =>
          outputNodes := outputNodes + [node];
        case Err(e) =>
          return AlwaysFails(e);
      }
    }
  }

  // ---------------------------------------------------------------------------
  // What a compiled formula does.

  /** A formula whose parse failed fails with that error whatever it is given. */
  lemma FailedParseIsConstant(text: string, t1: F32, p1: Point, t2: F32, p2: Point)
    requires Compile(text).AlwaysFails?
    ensures Evaluate(Compile(text), t1, p1) == Evaluate(Compile(text), t2, p2) == Err(Compile(text).error)
  {
  }

  /** The empty text parses, to a formula that always reports empty input. */
  lemma EmptyText(t: F32, p: Point)
    ensures Compile("") == Evaluates([])
    ensures Evaluate(Compile(""), t, p) == Err(InputIsEmpty)
  {
  }

  /** `x` is the point's x coordinate. */
  lemma SingleVariable(t: F32, p: Point)
    ensures Compile("x") == Evaluates([PointX])
    ensures Evaluate(Compile("x"), t, p) == Ok(Reduction.FloatValue(p.x))
  {
    assert Join([PointX]) == "x";
    CompileJoin([PointX]);
    ReductionFacts.ReduceYieldsBottom(Substitution.SimplifyAll([PointX], t, p));
  }

  /** `1 + 2 * 3` is read as five tokens. */
  lemma AddThenMultiplyTokens()
    ensures Compile("1 + 2 * 3")
         == Evaluates([Int(1), BinaryOperationSymbol(Addition), Int(2), BinaryOperationSymbol(Multiplication), Int(3)])
  {
    var ns := [Int(1), BinaryOperationSymbol(Addition), Int(2), BinaryOperationSymbol(Multiplication), Int(3)];
    AddThenMultiplySpelling();
    CompileJoin(ns);
  }

  /** The printed form of the five tokens of `1 + 2 * 3`, built from its suffixes. */
  lemma AddThenMultiplySpelling()
    ensures Join([Int(1), BinaryOperationSymbol(Addition), Int(2), BinaryOperationSymbol(Multiplication), Int(3)])
         == "1 + 2 * 3"
  {
    var ns := [Int(1), BinaryOperationSymbol(Addition), Int(2), BinaryOperationSymbol(Multiplication), Int(3)];
    assert Decimal(1) == "1";
    assert Join(ns) == Render(ns[0]) + JoinRest(ns[1..]);
    assert ns[1..] == [BinaryOperationSymbol(Addition), Int(2), BinaryOperationSymbol(Multiplication), Int(3)];
    SpellingFromPlus();
  }

  lemma SpellingFromPlus()
    ensures JoinRest([BinaryOperationSymbol(Addition), Int(2), BinaryOperationSymbol(Multiplication), Int(3)])
         == " + 2 * 3"
  {
    var ms := [BinaryOperationSymbol(Addition), Int(2), BinaryOperationSymbol(Multiplication), Int(3)];
    assert JoinRest(ms) == " " + Render(ms[0]) + JoinRest(ms[1..]);
    assert ms[1..] == [Int(2), BinaryOperationSymbol(Multiplication), Int(3)];
    SpellingFromTwo();
  }

  lemma SpellingFromTwo()
    ensures JoinRest([Int(2), BinaryOperationSymbol(Multiplication), Int(3)]) == " 2 * 3"
  {
    var ms := [Int(2), BinaryOperationSymbol(Multiplication), Int(3)];
    assert Decimal(2) == "2";
    assert JoinRest(ms) == " " + Render(ms[0]) + JoinRest(ms[1..]);
    assert ms[1..] == [BinaryOperationSymbol(Multiplication), Int(3)];
    SpellingFromTimes();
  }

  lemma SpellingFromTimes()
    ensures JoinRest([BinaryOperationSymbol(Multiplication), Int(3)]) == " * 3"
  {
    var ms := [BinaryOperationSymbol(Multiplication), Int(3)];
    assert Decimal(3) == "3";
    assert JoinRest(ms) == " " + Render(ms[0]) + JoinRest(ms[1..]);
    assert ms[1..] == [Int(3)];
    assert JoinRest(ms[1..]) == " " + Render(ms[1..][0]) + JoinRest(ms[1..][1..]);
    assert ms[1..][1..] == [];
  }

  /** Substitution leaves the literal tokens of `1 + 2 * 3` as they are. */
  lemma AddThenMultiplySubstituted(t: F32, p: Point)
    ensures Substitution.SimplifyAll([Int(1), BinaryOperationSymbol(Addition), Int(2),
                                      BinaryOperationSymbol(Multiplication), Int(3)], t, p)
         == [Substitution.Int(1), Substitution.BinaryOperationSymbol(Addition), Substitution.Int(2),
             Substitution.BinaryOperationSymbol(Multiplication), Substitution.Int(3)]
  {
  }

  /**
    `1 + 2 * 3` evaluates to `1 * (2 + 3)`: the drain applies the stacked operators in
    the order they were pushed.
   */
  lemma AddThenMultiplyText(t: F32, p: Point)
    ensures Evaluate(Compile("1 + 2 * 3"), t, p)
         == Ok(Reduction.Applied(Multiplication, Reduction.IntValue(1),
                 Reduction.Applied(Addition, Reduction.IntValue(2), Reduction.IntValue(3))))
  {
    AddThenMultiplyTokens();
    AddThenMultiplySubstituted(t, p);
    ReductionFacts.AddThenMultiply();
  }

  // ---------------------------------------------------------------------------
  // Errors: the last rule's error is the one reported.

  /** An unknown letter: every rule fails, and the integer rule's complaint is reported. */
  lemma UnknownLetter()
    ensures Compile("q") == AlwaysFails(NotNumerical(Some('q')))
  {
    var s := "q";
    SkipSpacesTo(s, 0, 0);
    NoFunctionName(s, 0);
    FirstRulesFail(s, 0, |Registry|);
    DispatchOrder(s, 0);
  }

  /**
    An unclosed group: the group rule fails at the end of the text, but its error is
    discarded, and the integer rule's complaint about the `(` is reported instead.
   */
  lemma UnclosedGroup()
    ensures Compile("(x") == AlwaysFails(NotNumerical(Some('(')))
  {
    var s := "(x";
    SkipSpacesTo(s, 1, 1);
    RenderedParses(s, 1, 1, PointX);
    SkipSpacesTo(s, 2, 2);
    NothingParses(s, 2);
    assert ParseInterior(s, 1, []).Failed?;
    SkipSpacesTo(s, 0, 0);
    NoFunctionName(s, 0);
    forall n | 0 <= n < |Registry| - 1
      ensures ApplyRule(Registry[n], s, 0).Failed?
    {
      if n >= 2 {
        RuleOffRankFails(s, 0, n);
      }
    }
    OnlyIntegerLeft(s, 0);
  }

  /**
    An integer literal parses exactly when its value fits in an `i64`; one more than
    the largest is the overflow error, and the whole formula fails with it.
   */
  lemma IntegerLimit(k: nat)
    ensures k <= I64_MAX ==> Compile(Decimal(k)) == Evaluates([Int(k)])
    ensures k > I64_MAX ==> Compile(Decimal(k)) == AlwaysFails(IntegerTooLarge)
  {
    var s := Decimal(k);
    if k <= I64_MAX {
      assert Join([Int(k)]) == s;
      CompileJoin([Int(k)]);
    } else {
      ReadsDecimal(s, 0, k);
      StartsWithFirst(s, 0, s);
      SkipSpacesTo(s, 0, 0);
      NoFunctionName(s, 0);
      FirstRulesFail(s, 0, |Registry| - 1);
      OnlyIntegerLeft(s, 0);
    }
  }

  /** `sin(1)` is a call of `sin` on one argument. */
  lemma LowerCaseCall()
    ensures ParseBuiltinFunc("sin(1)", 0) == Parsed(BuiltinFunction(Sin, [Int(1)]), 6)
    ensures Compile("sin(1)") == Evaluates([BuiltinFunction(Sin, [Int(1)])])
  {
    var call := BuiltinFunction(Sin, [Int(1)]);
    assert Decimal(1) == "1";
    assert Join([call]) == "sin(1)" && Render(call) == "sin(1)";
    CompileJoin([call]);
    CallParses("sin(1)", 0, Sin, [Int(1)]);
  }

  /** `SIN(1)` is the same call as `sin(1)`. */
  lemma UpperCaseCall()
    ensures ParseBuiltinFunc("SIN(1)", 0) == Parsed(BuiltinFunction(Sin, [Int(1)]), 6)
  {
    LowerCaseCall();
    assert Lower('S') == 's' && Lower('I') == 'i' && Lower('N') == 'n';
    BuiltinFuncIgnoresCase("SIN(1)", "sin(1)", 0);
  }

  /**
    Function names are matched without regard to case: `SIN(1)` and `sin(1)` compile to
    the same call.
   */
  lemma FunctionNameCase()
    ensures Compile("SIN(1)") == Compile("sin(1)") == Evaluates([BuiltinFunction(Sin, [Int(1)])])
  {
    var call := BuiltinFunction(Sin, [Int(1)]);
    var upper := "SIN(1)";
    LowerCaseCall();
    UpperCaseCall();
    SkipSpacesTo(upper, 0, 0);
    DispatchFirstSuccess(upper, 0, 0);
    assert ParseFrom(upper, 0, []) == ParseFrom(upper, 6, [] + [call]);
  }

  /**
    A space or newline after the last token makes a formula that parsed fail: the loop
    only stops at the very end of the text, and the dispatch it runs after the blank
    finds no token. A text that failed to parse fails with the same error.
   */
  lemma TrailingSpace(text: string, c: char)
    requires IsSpace(c)
    ensures Compile(text).Evaluates? ==> Compile(text + [c]) == AlwaysFails(NotNumerical(None))
    ensures Compile(text).AlwaysFails? ==> Compile(text + [c]) == Compile(text)
  {
    Spacing.ParseFromAppended(text, c, 0, []);
  }
}
