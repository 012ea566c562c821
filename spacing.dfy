/**
  What a space or newline written after the end of a text changes in how it parses.
  Every rule that reaches the end of the text fails there, and appending a blank
  character only moves that end one place further: a dispatch started inside the text
  gives the same reply, and a dispatch started at its end still finds no token. The
  top-level loop, however, stops only when the text is finished, so a formula that
  parsed without the blank runs one more dispatch with it, and that dispatch fails.
 */
module Spacing {
  import opened Results
  import opened Tokens
  import opened Cursor
  import opened Grammar
  import opened GrammarFacts
  import opened Rendering

  // ---------------------------------------------------------------------------
  // The primitives before the appended character.

  lemma {:induction false} SkipSpacesAppended(s: string, c: char, i: nat)
    requires IsSpace(c) && i <= |s|
    ensures SkipSpaces(s + [c], i) == if SkipSpaces(s, i) == |s| then |s| + 1 else SkipSpaces(s, i)
    decreases |s| - i
  {
    var t := s + [c];
    if i < |s| {
      assert t[i] == s[i];
      if IsSpace(s[i]) {
        SkipSpacesAppended(s, c, i + 1);
      }
    } else {
      assert t[i] == c;
      assert SkipSpaces(t, i + 1) == |t|;
    }
  }

  lemma {:induction false} DigitRunEndAppended(s: string, c: char, i: nat)
    requires IsSpace(c) && i <= |s|
    ensures DigitRunEnd(s + [c], i) == DigitRunEnd(s, i)
    decreases |s| - i
  {
    var t := s + [c];
    if i < |s| {
      assert t[i] == s[i];
      if IsDigit(s[i]) {
        DigitRunEndAppended(s, c, i + 1);
      }
    } else {
      assert t[i] == c;
    }
  }

  /** A word without blanks is matched at `i` with or without the appended character. */
  lemma MatchesCiAppended(s: string, c: char, i: nat, w: string)
    requires IsSpace(c) && i <= |s| && w != [] && !IsSpace(w[|w| - 1])
    ensures MatchesCi(s + [c], i, w) <==> MatchesCi(s, i, w)
  {
    var t := s + [c];
    if i + |w| == |t| {
      assert t[i + (|w| - 1)] == c;
    }
    if MatchesCi(t, i, w) && i + |w| <= |s| {
      forall k | 0 <= k < |w| ensures Lower(s[i + k]) == w[k] {
        assert t[i + k] == s[i + k];
      }
    }
    if MatchesCi(s, i, w) {
      forall k | 0 <= k < |w| ensures Lower(t[i + k]) == w[k] {
        assert t[i + k] == s[i + k];
      }
    }
  }

  lemma FunctionNameAppended(s: string, c: char, i: nat)
    requires IsSpace(c) && i <= |s|
    ensures FunctionName(s + [c], i) == FunctionName(s, i)
  {
    MatchesCiAppended(s, c, i, "sin");
    MatchesCiAppended(s, c, i, "cos");
    MatchesCiAppended(s, c, i, "tan");
    MatchesCiAppended(s, c, i, "abs");
  }

  /** The terminal rules started inside the text give the same reply. */
  lemma TerminalsAppended(s: string, c: char, j: nat)
    requires IsSpace(c) && j < |s|
    ensures ParseTime(s + [c], j) == ParseTime(s, j)
    ensures ParseBinaryOperationSymbol(s + [c], j) == ParseBinaryOperationSymbol(s, j)
    ensures forall x, node :: ParseLetter(s + [c], j, x, node) == ParseLetter(s, j, x, node)
    ensures ParseInteger(s + [c], j) == ParseInteger(s, j)
  {
    var t := s + [c];
    assert t[j] == s[j];
    assert Peek(t, j) == Peek(s, j);
    if j + 3 == |s| {
      assert !StartsWith(t, j, "time") by {
        assert t[j + 3] == c && "time"[3] == 'e';
      }
    }
    if StartsWith(t, j, "time") && j + 4 <= |s| {
      forall k | 0 <= k < 4 ensures s[j + k] == "time"[k] {
        assert t[j + k] == s[j + k];
      }
    }
    if StartsWith(s, j, "time") {
      forall k | 0 <= k < 4 ensures t[j + k] == "time"[k] {
        assert t[j + k] == s[j + k];
      }
    }
    DigitRunEndAppended(s, c, j);
    var e := DigitRunEnd(s, j);
    assert t[j..e] == s[j..e];
  }

  /** A dispatch whose spaces run to the end of the text fails with `NotNumerical(None)`. */
  lemma DispatchAtEnd(s: string, i: nat)
    requires i <= |s| && SkipSpaces(s, i) == |s|
    ensures ParseOne(s, i) == Failed(NotNumerical(None))
  {
    FirstRulesFail(s, |s|, |Registry|);
    DispatchOrder(s, i);
  }

  // ---------------------------------------------------------------------------
  // The recursive rules, by the recursion of the grammar.

  /** The same outcome, though not necessarily the same error. */
  predicate SameOutcome(a: Reply<FuncNode>, b: Reply<FuncNode>)
  {
    (a.Parsed? <==> b.Parsed?) && (b.Parsed? ==> a == b)
  }

  /** A dispatch anywhere up to the end of the text gives the same reply. */
  lemma {:induction false} ParseOneAppended(s: string, c: char, i: nat)
    requires IsSpace(c) && i <= |s|
    ensures ParseOne(s + [c], i) == ParseOne(s, i)
    decreases |s| - i, 3, 0
  {
    SkipSpacesAppended(s, c, i);
    if SkipSpaces(s, i) == |s| {
      DispatchAtEnd(s, i);
      DispatchAtEnd(s + [c], i);
    } else {
      TryRulesAppended(s, c, i, 0, NoParserMatched, NoParserMatched);
    }
  }

  /**
    The dispatch from rule `k` on, when the first token starts inside the text: the
    errors kept so far may differ, since the last rule's error replaces them.
   */
  lemma {:induction false} TryRulesAppended(s: string, c: char, i: nat, k: nat, e: Error, e': Error)
    requires IsSpace(c) && i <= |s| && k < |Registry| && SkipSpaces(s, i) < |s|
    ensures TryRules(s + [c], i, k, e') == TryRules(s, i, k, e)
    decreases |s| - i, 2, |Registry| - k
  {
    var t := s + [c];
    var j := SkipSpaces(s, i);
    SkipSpacesAppended(s, c, i);
    ApplyRuleAppended(Registry[k], s, c, j);
    var r := ApplyRule(Registry[k], s, j);
    if r.Failed? && k + 1 < |Registry| {
      TryRulesAppended(s, c, i, k + 1, r.error, ApplyRule(Registry[k], t, j).error);
    }
  }

  /** One registry entry started inside the text; only the call rule's error may differ. */
  lemma {:induction false} ApplyRuleAppended(rule: Rule, s: string, c: char, j: nat)
    requires IsSpace(c) && j < |s|
    ensures SameOutcome(ApplyRule(rule, s + [c], j), ApplyRule(rule, s, j))
    ensures rule != BuiltinFuncRule ==> ApplyRule(rule, s + [c], j) == ApplyRule(rule, s, j)
    decreases |s| - j, 1, 0
  {
    match rule
    case BuiltinFuncRule => BuiltinFuncAppended(s, c, j);
    case ParenthesesRule => ParenthesesAppended(s, c, j);
    case _ => TerminalsAppended(s, c, j);
  }

  lemma {:induction false} BuiltinFuncAppended(s: string, c: char, i: nat)
    requires IsSpace(c) && i < |s|
    ensures SameOutcome(ParseBuiltinFunc(s + [c], i), ParseBuiltinFunc(s, i))
    decreases |s| - i, 0, 0
  {
    var t := s + [c];
    FunctionNameAppended(s, c, i);
    if i + 3 < |s| {
      assert t[i + 3] == s[i + 3];
      if s[i + 3] == '(' {
        InteriorAppended(s, c, i + 4, []);
      }
    } else if i + 3 < |t| {
      assert t[i + 3] == c;
    }
  }

  lemma {:induction false} ParenthesesAppended(s: string, c: char, i: nat)
    requires IsSpace(c) && i < |s|
    ensures ParseParentheses(s + [c], i) == ParseParentheses(s, i)
    decreases |s| - i, 0, 0
  {
    var t := s + [c];
    assert t[i] == s[i];
    if s[i] == '(' {
      InteriorAppended(s, c, i + 1, []);
    }
  }

  /** The interior loop gives the same reply, its error included. */
  lemma {:induction false} InteriorAppended(s: string, c: char, p: nat, acc: seq<FuncNode>)
    requires IsSpace(c) && p <= |s|
    ensures ParseInterior(s + [c], p, acc) == ParseInterior(s, p, acc)
    decreases |s| - p, 4, 0
  {
    var t := s + [c];
    var q := SkipSpaces(s, p);
    SkipSpacesAppended(s, c, p);
    if q == |s| {
      DispatchAtEnd(s, q);
      DispatchAtEnd(t, |t|);
    } else {
      assert t[q] == s[q];
      ParseOneAppended(s, c, q);
      match ParseOne(s, q)
      case Parsed(node, next) => InteriorAppended(s, c, next, acc + [node]);
      case Failed(_) =>
    }
  }

  // ---------------------------------------------------------------------------
  // The top-level loop.

  /**
    The loop reaches the appended character only when it has parsed the whole text,
    and the dispatch it then runs fails; a failure before it is the same failure.
   */
  lemma {:induction false} ParseFromAppended(s: string, c: char, i: nat, acc: seq<FuncNode>)
    requires IsSpace(c) && i <= |s|
    ensures ParseFrom(s + [c], i, acc) ==
      if ParseFrom(s, i, acc).Evaluates? then AlwaysFails(NotNumerical(None)) else ParseFrom(s, i, acc)
    decreases |s| - i
  {
    var t := s + [c];
    if i == |s| {
      SkipSpacesAppended(s, c, i);
      DispatchAtEnd(t, i);
    } else {
      ParseOneAppended(s, c, i);
      match ParseOne(s, i)
      case Parsed(node, next) => ParseFromAppended(s, c, next, acc + [node]);
      case Failed(_) =>
    }
  }
}
