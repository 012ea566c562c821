/** What the grammar promises: dispatch order, locality, case-insensitive names. */
module GrammarFacts {
  import opened Results
  import opened Tokens
  import opened Cursor
  import opened Grammar

  // ---------------------------------------------------------------------------
  // The dispatcher tries the rules in registry order and keeps the first success.

  lemma {:induction false} TryRulesFirstSuccess(s: string, i: nat, k: nat, lastErr: Error, m: nat)
    requires i <= |s| && k <= m < |Registry|
    requires forall n :: k <= n < m ==> ApplyRule(Registry[n], s, SkipSpaces(s, i)).Failed?
    requires ApplyRule(Registry[m], s, SkipSpaces(s, i)).Parsed?
    ensures TryRules(s, i, k, lastErr) == ApplyRule(Registry[m], s, SkipSpaces(s, i))
    decreases m - k
  {
    if k < m {
      TryRulesFirstSuccess(s, i, k + 1, ApplyRule(Registry[k], s, SkipSpaces(s, i)).error, m);
    }
  }

  lemma {:induction false} TryRulesAllFail(s: string, i: nat, k: nat, lastErr: Error)
    requires i <= |s| && k <= |Registry|
    ensures TryRules(s, i, k, lastErr).Failed?
        <==> forall n :: k <= n < |Registry| ==> ApplyRule(Registry[n], s, SkipSpaces(s, i)).Failed?
    ensures TryRules(s, i, k, lastErr).Failed? && k < |Registry| ==>
              TryRules(s, i, k, lastErr) == ApplyRule(IntegerRule, s, SkipSpaces(s, i))
    decreases |Registry| - k
  {
    if k < |Registry| {
      var j := SkipSpaces(s, i);
      match ApplyRule(Registry[k], s, j) {
        case Parsed(_, _) =>
        case Failed(e) => TryRulesAllFail(s, i, k + 1, e);
      }
    }
  }

  /** A successful dispatch from rule `k` is the reply of rule `m`, the first to succeed. */
  lemma {:induction false} TryRulesSomeSuccess(s: string, i: nat, k: nat, lastErr: Error) returns (m: nat)
    requires i <= |s| && k <= |Registry| && TryRules(s, i, k, lastErr).Parsed?
    ensures k <= m < |Registry|
    ensures forall n :: k <= n < m ==> ApplyRule(Registry[n], s, SkipSpaces(s, i)).Failed?
    ensures TryRules(s, i, k, lastErr) == ApplyRule(Registry[m], s, SkipSpaces(s, i))
    decreases |Registry| - k
  {
    var j := SkipSpaces(s, i);
    match ApplyRule(Registry[k], s, j) {
      case Parsed(_, _) =>
        m := k;
      case Failed(e) =>
        m := TryRulesSomeSuccess(s, i, k + 1, e);
    }
  }

  /**
    Dispatch order and backtracking: every rule starts at the save point with spaces
    skipped; the reply is that of the first rule in registry order that succeeds, and
    when none does, the dispatch fails with the error of the last rule, the integer rule.
   */
  lemma DispatchOrder(s: string, i: nat)
    requires i <= |s|
    ensures var j := SkipSpaces(s, i);
      && (ParseOne(s, i).Failed? <==> forall n :: 0 <= n < |Registry| ==> ApplyRule(Registry[n], s, j).Failed?)
      && (ParseOne(s, i).Failed? ==> ParseOne(s, i) == ParseInteger(s, j))
      && (ParseOne(s, i).Parsed? ==>
            exists m :: 0 <= m < |Registry|
              && (forall n :: 0 <= n < m ==> ApplyRule(Registry[n], s, j).Failed?)
              && ParseOne(s, i) == ApplyRule(Registry[m], s, j))
  {
    TryRulesAllFail(s, i, 0, NoParserMatched);
    if ParseOne(s, i).Parsed? {
      var m := TryRulesSomeSuccess(s, i, 0, NoParserMatched);
    }
  }

  /** The converse direction: the first rule that succeeds decides the dispatch. */
  lemma DispatchFirstSuccess(s: string, i: nat, m: nat)
    requires i <= |s| && m < |Registry|
    requires forall n :: 0 <= n < m ==> ApplyRule(Registry[n], s, SkipSpaces(s, i)).Failed?
    requires ApplyRule(Registry[m], s, SkipSpaces(s, i)).Parsed?
    ensures ParseOne(s, i) == ApplyRule(Registry[m], s, SkipSpaces(s, i))
  {
    TryRulesFirstSuccess(s, i, 0, NoParserMatched, m);
  }

  // ---------------------------------------------------------------------------
  // The operator rule reads exactly the characters operators are written with.

  /**
    The operator rule succeeds exactly at the written symbol of some operator, yields
    that operator and consumes the one character; anywhere else it reports the next
    character.
   */
  lemma OperatorSpelling(s: string, i: nat)
    requires i <= |s|
    ensures ParseBinaryOperationSymbol(s, i).Parsed? <==> i < |s| && exists op :: Symbol(op) == s[i]
    ensures forall op :: i < |s| && Symbol(op) == s[i] ==>
              ParseBinaryOperationSymbol(s, i) == Parsed(BinaryOperationSymbol(op), i + 1)
    ensures ParseBinaryOperationSymbol(s, i).Failed? ==>
              ParseBinaryOperationSymbol(s, i).error == ExpectedOperator(Peek(s, i))
  {
    if i < |s| {
      var c := s[i];
      if c == '+' {
        assert Symbol(Addition) == c;
      } else if c == '*' {
        assert Symbol(Multiplication) == c;
      } else if c == '-' {
        assert Symbol(Subtraction) == c;
      } else if c == '/' {
        assert Symbol(Division) == c;
      } else if c == '^' {
        assert Symbol(Exponentiation) == c;
      }
    }
  }

  /**
    `FormulaParser::new`: the list starts with the six terminal rules, the call rule is
    inserted at index 0 and then the group rule at index 1. Every rule is in the list
    exactly once (its `Position` inverts indexing), so a dispatch tries each rule once,
    and the integer rule is tried last.
   */
  lemma RegistryAssembly()
    ensures Registry == Insert(Insert(TerminalRules, 0, BuiltinFuncRule), 1, ParenthesesRule)
    ensures forall k :: 0 <= k < |Registry| ==> Position(Registry[k]) == k
    ensures forall rule :: Registry[Position(rule)] == rule
    ensures Registry[|Registry| - 1] == IntegerRule
  {
    var once := Insert(TerminalRules, 0, BuiltinFuncRule);
    assert once == [BuiltinFuncRule] + TerminalRules;
    assert Insert(once, 1, ParenthesesRule) == Registry;
  }

  /**
    Where each rule stands in the registry. It inverts indexing (`RegistryAssembly`), so
    every rule is in the registry exactly once.
   */
  function Position(rule: Rule): (k: nat)
    ensures k < |Registry|
  {
    match rule
    case BuiltinFuncRule => 0
    case ParenthesesRule => 1
    case BinaryOperationSymbolRule => 2
    case TimeRule => 3
    case PointXRule => 4
    case PointYRule => 5
    case PointZRule => 6
    case IntegerRule => 7
  }

  // ---------------------------------------------------------------------------
  // A rule reads only the text from its offset on.

  /** `s` and `t` have the same length and the same characters from `i` on. */
  predicate Agree(s: string, t: string, i: nat)
  {
    |s| == |t| && i <= |s| && forall k :: i <= k < |s| ==> s[k] == t[k]
  }

  lemma {:induction false} AgreeSkipSpaces(s: string, t: string, i: nat)
    requires Agree(s, t, i)
    ensures SkipSpaces(s, i) == SkipSpaces(t, i)
    decreases |s| - i
  {
    if i < |s| && IsSpace(s[i]) {
      AgreeSkipSpaces(s, t, i + 1);
    }
  }

  lemma {:induction false} AgreeDigitRunEnd(s: string, t: string, i: nat)
    requires Agree(s, t, i)
    ensures DigitRunEnd(s, i) == DigitRunEnd(t, i)
    decreases |s| - i
  {
    if i < |s| && IsDigit(s[i]) {
      AgreeDigitRunEnd(s, t, i + 1);
    }
  }

  lemma AgreePeek(s: string, t: string, i: nat)
    requires Agree(s, t, i)
    ensures Peek(s, i) == Peek(t, i)
  {
  }

  lemma AgreeTerminals(s: string, t: string, i: nat)
    requires Agree(s, t, i)
    ensures ParseTime(s, i) == ParseTime(t, i)
    ensures ParseBinaryOperationSymbol(s, i) == ParseBinaryOperationSymbol(t, i)
    ensures forall c, node :: ParseLetter(s, i, c, node) == ParseLetter(t, i, c, node)
    ensures FunctionName(s, i) == FunctionName(t, i)
  {
    AgreePeek(s, t, i);
    AgreeFunctionName(s, t, i);
  }

  lemma AgreeMatchesCi(s: string, t: string, i: nat, w: string)
    requires Agree(s, t, i)
    ensures MatchesCi(s, i, w) <==> MatchesCi(t, i, w)
  {
  }

  lemma AgreeFunctionName(s: string, t: string, i: nat)
    requires Agree(s, t, i)
    ensures FunctionName(s, i) == FunctionName(t, i)
  {
    AgreeMatchesCi(s, t, i, "sin");
    AgreeMatchesCi(s, t, i, "cos");
    AgreeMatchesCi(s, t, i, "tan");
    AgreeMatchesCi(s, t, i, "abs");
  }

  lemma AgreeInteger(s: string, t: string, i: nat)
    requires Agree(s, t, i)
    ensures ParseInteger(s, i) == ParseInteger(t, i)
  {
    AgreePeek(s, t, i);
    AgreeDigitRunEnd(s, t, i);
    var e := DigitRunEnd(s, i);
    assert s[i..e] == t[i..e];
  }

  lemma {:induction false} AgreeParseOne(s: string, t: string, i: nat)
    requires Agree(s, t, i)
    ensures ParseOne(s, i) == ParseOne(t, i)
    decreases |s| - i, 3, 0
  {
    AgreeTryRules(s, t, i, 0, NoParserMatched);
  }

  lemma {:induction false} AgreeTryRules(s: string, t: string, i: nat, k: nat, lastErr: Error)
    requires Agree(s, t, i) && k <= |Registry|
    ensures TryRules(s, i, k, lastErr) == TryRules(t, i, k, lastErr)
    decreases |s| - i, 2, |Registry| - k
  {
    if k < |Registry| {
      AgreeSkipSpaces(s, t, i);
      var j := SkipSpaces(s, i);
      AgreeApplyRule(Registry[k], s, t, j);
      match ApplyRule(Registry[k], s, j) {
        case Parsed(_, _) =>
        case Failed(e) => AgreeTryRules(s, t, i, k + 1, e);
      }
    }
  }

  lemma {:induction false} AgreeApplyRule(rule: Rule, s: string, t: string, i: nat)
    requires Agree(s, t, i)
    ensures ApplyRule(rule, s, i) == ApplyRule(rule, t, i)
    decreases |s| - i, 1, 0
  {
    AgreeTerminals(s, t, i);
    AgreeInteger(s, t, i);
    match rule {
      case BuiltinFuncRule => AgreeBuiltinFunc(s, t, i);
      case ParenthesesRule => AgreeParentheses(s, t, i);
      case _ =>
    }
  }

  lemma {:induction false} AgreeInterior(s: string, t: string, p: nat, acc: seq<FuncNode>)
    requires Agree(s, t, p)
    ensures ParseInterior(s, p, acc) == ParseInterior(t, p, acc)
    decreases |s| - p, 4, 0
  {
    AgreeSkipSpaces(s, t, p);
    var q := SkipSpaces(s, p);
    AgreeParseOne(s, t, q);
    match ParseOne(s, q) {
      case Parsed(node, next) => AgreeInterior(s, t, next, acc + [node]);
      case Failed(_) =>
    }
  }

  lemma {:induction false} AgreeBuiltinFunc(s: string, t: string, i: nat)
    requires Agree(s, t, i)
    ensures ParseBuiltinFunc(s, i) == ParseBuiltinFunc(t, i)
    decreases |s| - i, 0, 0
  {
    AgreeTerminals(s, t, i);
    if FunctionName(s, i).Some? && i + 3 < |s| && s[i + 3] == '(' {
      AgreeInterior(s, t, i + 4, []);
    }
    assert Peek(s, i + 3) == Peek(t, i + 3);
  }

  lemma {:induction false} AgreeParentheses(s: string, t: string, i: nat)
    requires Agree(s, t, i)
    ensures ParseParentheses(s, i) == ParseParentheses(t, i)
    decreases |s| - i, 0, 0
  {
    AgreePeek(s, t, i);
    if i < |s| && s[i] == '(' {
      assert Agree(s, t, i + 1);
      AgreeInterior(s, t, i + 1, []);
    }
  }

  // ---------------------------------------------------------------------------
  // Function names.

  /**
    The name is recognised exactly when the next three characters, lower-cased, spell
    it: the four names begin with different letters, so the order they are tried in
    never matters.
   */
  lemma FunctionNameSpelling(s: string, i: nat, f: FunctionType)
    ensures FunctionName(s, i) == Some(f) <==> MatchesCi(s, i, Name(f))
  {
    if MatchesCi(s, i, Name(f)) {
      MatchesCiInitial(s, i, Name(f));
      if MatchesCi(s, i, "sin") { MatchesCiInitial(s, i, "sin"); }
      if MatchesCi(s, i, "cos") { MatchesCiInitial(s, i, "cos"); }
      if MatchesCi(s, i, "tan") { MatchesCiInitial(s, i, "tan"); }
    }
  }

  lemma MatchesCiInitial(s: string, i: nat, w: string)
    requires MatchesCi(s, i, w) && w != []
    ensures Lower(s[i]) == w[0]
  {
    assert Lower(s[i + 0]) == w[0];
  }

  /** Case-insensitive matching at `i` reads the characters there only up to case. */
  lemma MatchesCiUpToCase(s: string, t: string, i: nat, w: string)
    requires |s| == |t|
    requires forall k :: i <= k < i + |w| && k < |s| ==> Lower(s[k]) == Lower(t[k])
    ensures MatchesCi(s, i, w) <==> MatchesCi(t, i, w)
  {
    if MatchesCi(s, i, w) {
      forall k | 0 <= k < |w| ensures Lower(t[i + k]) == w[k] {
        assert Lower(s[i + k]) == w[k];
      }
    }
    if MatchesCi(t, i, w) {
      forall k | 0 <= k < |w| ensures Lower(s[i + k]) == w[k] {
        assert Lower(t[i + k]) == w[k];
      }
    }
  }

  lemma FunctionNameUpToCase(s: string, t: string, i: nat)
    requires |s| == |t| && i + 3 <= |s|
    requires forall k :: i <= k < i + 3 ==> Lower(s[k]) == Lower(t[k])
    ensures FunctionName(s, i) == FunctionName(t, i)
  {
    MatchesCiUpToCase(s, t, i, "sin");
    MatchesCiUpToCase(s, t, i, "cos");
    MatchesCiUpToCase(s, t, i, "tan");
    MatchesCiUpToCase(s, t, i, "abs");
  }

  /** Only the case-folded name is read: `SIN(` and `sin(` start the same call. */
  lemma BuiltinFuncIgnoresCase(s: string, t: string, i: nat)
    requires |s| == |t| && i + 3 <= |s|
    requires forall k :: i <= k < i + 3 ==> Lower(s[k]) == Lower(t[k])
    requires Agree(s, t, i + 3)
    ensures FunctionName(s, i) == FunctionName(t, i)
    ensures FunctionName(s, i).Some? ==> ParseBuiltinFunc(s, i) == ParseBuiltinFunc(t, i)
  {
    FunctionNameUpToCase(s, t, i);
    if FunctionName(s, i).Some? && i + 3 < |s| && s[i + 3] == '(' {
      AgreeInterior(s, t, i + 4, []);
    }
    AgreePeek(s, t, i + 3);
  }
}
