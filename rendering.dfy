/**
  A reference printer for token trees, and the proof that the grammar reads every
  printed tree back. The printer writes each token in its canonical spelling (lower-case
  names, decimal integers, operator symbols) and separates neighbouring tokens by one
  space, inside calls and groups as at the top level; `Compile` of the printed list
  gives back the list itself. Trees that hold a `Float` or a negative integer have no
  spelling: the grammar never produces them.
 */
module Rendering {
  import opened Results
  import opened Tokens
  import opened Cursor
  import opened Grammar
  import opened GrammarFacts

  function DigitChar(d: nat): (c: char)
    requires d < 10
    ensures IsDigit(c) && DigitValue(c) == d
  {
    ('0' as int + d) as char
  }

  /** The decimal spelling of `k`, without sign or leading zeros. */
  function Decimal(k: nat): (r: string)
    ensures r != [] && AllDigits(r)
  {
    if k < 10 then [DigitChar(k)] else Decimal(k / 10) + [DigitChar(k % 10)]
  }

  /** `DigitsValue` undoes `Decimal`. */
  lemma {:induction false} DecimalValue(k: nat)
    ensures DigitsValue(Decimal(k)) == k
  {
    if k >= 10 {
      var d := Decimal(k);
      assert d[..|d| - 1] == Decimal(k / 10);
      DecimalValue(k / 10);
    }
  }

  /** A tree the grammar can produce: no float literal, no negative integer, at any depth. */
  predicate Printable(n: FuncNode)
  {
    match n
    case Float(_) => false
    case Int(i) => i >= 0
    case BuiltinFunction(_, args) => forall k :: 0 <= k < |args| ==> Printable(args[k])
    case Parentheses(nodes) => forall k :: 0 <= k < |nodes| ==> Printable(nodes[k])
    case _ => true
  }

  predicate AllPrintable(ns: seq<FuncNode>)
  {
    forall k :: 0 <= k < |ns| ==> Printable(ns[k])
  }

  /** A printable list splits into a printable first token and a printable rest. */
  lemma PrintableSplit(ns: seq<FuncNode>)
    requires AllPrintable(ns) && ns != []
    ensures Printable(ns[0]) && AllPrintable(ns[1..])
  {
    forall k | 0 <= k < |ns| - 1 ensures Printable(ns[1..][k]) {
      assert ns[1..][k] == ns[k + 1];
    }
  }

  /** The canonical spelling of one token; it never starts with a space or a `)`. */
  function Render(n: FuncNode): (r: string)
    requires Printable(n)
    ensures r != [] && !IsSpace(r[0]) && r[0] != ')'
  {
    match n
    case Time => "time"
    case PointX => "x"
    case PointY => "y"
    case PointZ => "z"
    case Int(i) => Decimal(i)
    case BinaryOperationSymbol(op) => [Symbol(op)]
    case BuiltinFunction(f, args) => Name(f) + "(" + Join(args) + ")"
    case Parentheses(nodes) => "(" + Join(nodes) + ")"
  }

  /** The tokens of a list, separated by single spaces. */
  function Join(ns: seq<FuncNode>): string
    requires AllPrintable(ns)
  {
    if ns == [] then "" else Render(ns[0]) + JoinRest(ns[1..])
  }

  /** The tokens of a list, each preceded by a space. */
  function JoinRest(ns: seq<FuncNode>): (r: string)
    requires AllPrintable(ns)
    ensures r == [] || r[0] == ' '
  {
    if ns == [] then "" else " " + Render(ns[0]) + JoinRest(ns[1..])
  }

  // ---------------------------------------------------------------------------
  // Helpers about the text.

  lemma StartsWithSplit(s: string, j: nat, a: string, b: string)
    requires StartsWith(s, j, a + b)
    ensures StartsWith(s, j, a) && StartsWith(s, j + |a|, b)
  {
    forall k | 0 <= k < |a| ensures s[j + k] == a[k] {
      assert s[j + k] == (a + b)[k];
    }
    forall k | 0 <= k < |b| ensures s[j + |a| + k] == b[k] {
      assert s[j + (|a| + k)] == (a + b)[|a| + k];
    }
  }

  lemma StartsWithFirst(s: string, j: nat, w: string)
    requires w != []
    ensures StartsWith(s, j, w) ==> j < |s| && s[j] == w[0]
  {
    if StartsWith(s, j, w) {
      assert s[j + 0] == w[0];
    }
  }

  lemma {:induction false} SkipSpacesTo(s: string, i: nat, j: nat)
    requires i <= j <= |s| && (j == |s| || !IsSpace(s[j]))
    requires forall k :: i <= k < j ==> IsSpace(s[k])
    ensures SkipSpaces(s, i) == j
    decreases j - i
  {
    if i < j {
      SkipSpacesTo(s, i + 1, j);
    }
  }

  lemma {:induction false} DigitRunEndTo(s: string, i: nat, e: nat)
    requires i <= e <= |s| && (e == |s| || !IsDigit(s[e]))
    requires forall k :: i <= k < e ==> IsDigit(s[k])
    ensures DigitRunEnd(s, i) == e
    decreases e - i
  {
    if i < e {
      DigitRunEndTo(s, i + 1, e);
    }
  }

  /** No function name starts at `j` when the first letter cannot begin one. */
  lemma NoFunctionName(s: string, j: nat)
    requires j < |s| && Lower(s[j]) != 's' && Lower(s[j]) != 'c' && Lower(s[j]) != 'a'
    requires Lower(s[j]) == 't' ==> j + 1 < |s| && Lower(s[j + 1]) != 'a'
    ensures FunctionName(s, j) == None
  {
    if MatchesCi(s, j, "sin") { MatchesCiInitial(s, j, "sin"); }
    if MatchesCi(s, j, "cos") { MatchesCiInitial(s, j, "cos"); }
    if MatchesCi(s, j, "abs") { MatchesCiInitial(s, j, "abs"); }
    if MatchesCi(s, j, "tan") { MatchesCiInitial(s, j, "tan"); }
    if Lower(s[j]) == 't' { assert Lower(s[j + 1]) != "tan"[1]; }
  }

  /**
    The registry index of the first rule after the function-call rule that can accept
    `c` as its first character; 8 when none can.
   */
  function Rank(c: char): (k: nat)
    ensures 1 <= k <= |Registry|
  {
    if c == '(' then 1
    else if c == '+' || c == '*' || c == '-' || c == '/' || c == '^' then 2
    else if c == 't' then 3
    else if c == 'x' then 4
    else if c == 'y' then 5
    else if c == 'z' then 6
    else if IsDigit(c) then 7
    else 8
  }

  /** Each rule after the function-call rule accepts only the first characters its rank names. */
  lemma RuleOffRankFails(s: string, j: nat, n: nat)
    requires j <= |s| && 1 <= n < |Registry| && (j == |s| || n != Rank(s[j]))
    ensures ApplyRule(Registry[n], s, j).Failed?
  {
    if n == 1 {
    } else if n == 2 {
    } else if n == 3 {
      StartsWithFirst(s, j, "time");
    } else if n == 4 {
    } else if n == 5 {
    } else if n == 6 {
    } else {
      if j < |s| {
        assert !IsDigit(s[j]);
        assert DigitRunEnd(s, j) == j;
      }
    }
  }

  /** The rules before rule `m` fail at `j`. */
  lemma FirstRulesFail(s: string, j: nat, m: nat)
    requires j <= |s| && m <= |Registry|
    requires m > 0 ==> FunctionName(s, j) == None
    requires j == |s| || m <= Rank(s[j])
    ensures forall n :: 0 <= n < m ==> ApplyRule(Registry[n], s, j).Failed?
  {
    forall n | 0 <= n < m
      ensures ApplyRule(Registry[n], s, j).Failed?
    {
      if n > 0 {
        RuleOffRankFails(s, j, n);
      }
    }
  }

  /** When every rule fails, the integer rule's error is the dispatcher's. */
  lemma OnlyIntegerLeft(s: string, i: nat)
    requires i <= |s|
    requires forall n :: 0 <= n < |Registry| - 1 ==> ApplyRule(Registry[n], s, SkipSpaces(s, i)).Failed?
    requires ParseInteger(s, SkipSpaces(s, i)).Failed?
    ensures ParseOne(s, i) == ParseInteger(s, SkipSpaces(s, i))
  {
    var j := SkipSpaces(s, i);
    forall n | 0 <= n < |Registry|
      ensures ApplyRule(Registry[n], s, j).Failed?
    {
      if n == |Registry| - 1 {
        assert Registry[n] == IntegerRule;
      }
    }
    DispatchOrder(s, i);
  }

  /** No rule parses at the end of the text or at a `)`. */
  lemma NothingParses(s: string, j: nat)
    requires j == |s| || (j < |s| && s[j] == ')')
    ensures ParseOne(s, j).Failed?
  {
    SkipSpacesTo(s, j, j);
    if j < |s| {
      NoFunctionName(s, j);
    }
    FirstRulesFail(s, j, |Registry|);
    DispatchOrder(s, j);
  }

  /** Where a token may end: the end of the text, a space, or the `)` of its list. */
  predicate EndsToken(s: string, e: nat)
  {
    e == |s| || (e < |s| && (s[e] == ' ' || s[e] == ')'))
  }

  // ---------------------------------------------------------------------------
  // The layout of printed lists.

  /** Text that begins with `a`, then `b`, then `c`. */
  lemma Layout3(s: string, p: nat, a: string, b: string, c: string)
    requires StartsWith(s, p, a + b + c)
    ensures StartsWith(s, p, a) && StartsWith(s, p + |a|, b) && StartsWith(s, p + |a| + |b|, c)
    ensures StartsWith(s, p + |a|, b + c)
  {
    StartsWithSplit(s, p, a + b, c);
    StartsWithSplit(s, p, a, b);
    assert (a + b) + c == a + (b + c);
    StartsWithSplit(s, p, a, b + c);
  }

  /** Text that begins with a non-empty `a`, then `b`, then `c`. */
  lemma HeadLayout(s: string, p: nat, a: string, b: string, c: string)
    requires a != [] && StartsWith(s, p, a + b + c)
    ensures StartsWith(s, p, a) && p < |s| && s[p] == a[0]
    ensures StartsWith(s, p + |a|, b + c)
  {
    Layout3(s, p, a, b, c);
    assert s[p + 0] == a[0];
  }

  /** Text that begins with one character `a`, then a non-empty `b`, then `c`, then `d`. */
  lemma SpacedHeadLayout(s: string, p: nat, a: string, b: string, c: string, d: string)
    requires |a| == 1 && b != [] && StartsWith(s, p, a + b + c + d)
    ensures p < |s| && s[p] == a[0]
    ensures StartsWith(s, p + 1, b) && p + 1 < |s| && s[p + 1] == b[0]
    ensures StartsWith(s, p + 1 + |b|, c + d)
  {
    Layout3(s, p, a + b, c, d);
    StartsWithSplit(s, p, a, b);
    assert s[p + 0] == a[0];
    assert s[p + 1 + 0] == b[0];
  }

  /** A list printed with a tail (`)` or nothing): its first token, then the rest. */
  lemma JoinLayout(s: string, p: nat, ns: seq<FuncNode>, tail: string)
    requires AllPrintable(ns) && ns != [] && StartsWith(s, p, Join(ns) + tail)
    ensures |Join(ns)| == |Render(ns[0])| + |JoinRest(ns[1..])|
    ensures StartsWith(s, p, Render(ns[0])) && p < |s| && s[p] == Render(ns[0])[0]
    ensures StartsWith(s, p + |Render(ns[0])|, JoinRest(ns[1..]) + tail)
  {
    PrintableSplit(ns);
    assert Join(ns) == Render(ns[0]) + JoinRest(ns[1..]);
    HeadLayout(s, p, Render(ns[0]), JoinRest(ns[1..]), tail);
  }

  /** The same for the space-led form. */
  lemma JoinRestLayout(s: string, p: nat, ms: seq<FuncNode>, tail: string)
    requires AllPrintable(ms) && ms != [] && StartsWith(s, p, JoinRest(ms) + tail)
    ensures |JoinRest(ms)| == 1 + |Render(ms[0])| + |JoinRest(ms[1..])|
    ensures p < |s| && s[p] == ' '
    ensures StartsWith(s, p + 1, Render(ms[0])) && p + 1 < |s| && s[p + 1] == Render(ms[0])[0]
    ensures StartsWith(s, p + 1 + |Render(ms[0])|, JoinRest(ms[1..]) + tail)
  {
    PrintableSplit(ms);
    assert JoinRest(ms) == " " + Render(ms[0]) + JoinRest(ms[1..]);
    SpacedHeadLayout(s, p, " ", Render(ms[0]), JoinRest(ms[1..]), tail);
  }

  /** Whatever follows a printed token in a list lets the token end there. */
  lemma FollowerEndsToken(s: string, e: nat, ms: seq<FuncNode>, tail: string)
    requires AllPrintable(ms) && StartsWith(s, e, JoinRest(ms) + tail)
    requires tail == ")" || (tail == "" && e + |JoinRest(ms)| == |s|)
    ensures EndsToken(s, e)
  {
    var r := JoinRest(ms) + tail;
    if r != [] {
      assert s[e + 0] == r[0];
      if JoinRest(ms) == [] {
        assert r[0] == ')';
      } else {
        assert r[0] == JoinRest(ms)[0];
      }
    }
  }

  // ---------------------------------------------------------------------------
  // One step of each loop.

  lemma InteriorStep(s: string, p: nat, acc: seq<FuncNode>, node: FuncNode, next: nat)
    requires p <= |s| && ParseOne(s, SkipSpaces(s, p)) == Parsed(node, next)
    ensures ParseInterior(s, p, acc) == ParseInterior(s, next, acc + [node])
  {
  }

  lemma InteriorClose(s: string, p: nat, acc: seq<FuncNode>)
    requires p < |s| && s[p] == ')'
    ensures ParseInterior(s, p, acc) == Parsed(acc, p + 1)
  {
    SkipSpacesTo(s, p, p);
    NothingParses(s, p);
  }

  lemma FromStep(s: string, p: nat, acc: seq<FuncNode>, node: FuncNode, next: nat)
    requires p < |s| && ParseOne(s, p) == Parsed(node, next)
    ensures ParseFrom(s, p, acc) == ParseFrom(s, next, acc + [node])
  {
  }

  // ---------------------------------------------------------------------------
  // Each kind of token parses back.

  lemma LeafParses(s: string, i: nat, j: nat, n: FuncNode)
    requires i <= j <= |s| && SkipSpaces(s, i) == j
    requires n.Time? || n.PointX? || n.PointY? || n.PointZ?
    requires StartsWith(s, j, Render(n)) && EndsToken(s, j + |Render(n)|)
    ensures ParseOne(s, i) == Parsed(n, j + |Render(n)|)
  {
    var w := Render(n);
    assert s[j + 0] == w[0];
    if n.Time? {
      assert s[j + 1] == w[1];
      NoFunctionName(s, j);
      FirstRulesFail(s, j, 3);
      DispatchFirstSuccess(s, i, 3);
    } else {
      NoFunctionName(s, j);
      FirstRulesFail(s, j, Rank(s[j]));
      DispatchFirstSuccess(s, i, Rank(s[j]));
    }
  }

  lemma OperatorParses(s: string, i: nat, j: nat, op: Operator)
    requires i <= j <= |s| && SkipSpaces(s, i) == j && StartsWith(s, j, [Symbol(op)])
    ensures ParseOne(s, i) == Parsed(BinaryOperationSymbol(op), j + 1)
  {
    assert s[j + 0] == [Symbol(op)][0];
    NoFunctionName(s, j);
    FirstRulesFail(s, j, 2);
    DispatchFirstSuccess(s, i, 2);
  }

  /** The integer rule reads a decimal spelling whole: its value, or the overflow error. */
  lemma ReadsDecimal(s: string, j: nat, k: nat)
    requires StartsWith(s, j, Decimal(k)) && EndsToken(s, j + |Decimal(k)|)
    ensures ParseInteger(s, j)
         == if k <= I64_MAX then Parsed(Int(k), j + |Decimal(k)|) else Failed(IntegerTooLarge)
  {
    var d := Decimal(k);
    var e := j + |d|;
    forall m | j <= m < e ensures IsDigit(s[m]) {
      assert s[j + (m - j)] == d[m - j];
    }
    DigitRunEndTo(s, j, e);
    DecimalValue(k);
    assert s[j..e] == d;
  }

  lemma IntegerParses(s: string, i: nat, j: nat, v: I64)
    requires i <= j <= |s| && SkipSpaces(s, i) == j
    requires v >= 0 && StartsWith(s, j, Decimal(v)) && EndsToken(s, j + |Decimal(v)|)
    ensures ParseInteger(s, j) == Parsed(Int(v), j + |Decimal(v)|)
    ensures ParseOne(s, i) == Parsed(Int(v), j + |Decimal(v)|)
  {
    ReadsDecimal(s, j, v);
    StartsWithFirst(s, j, Decimal(v));
    NoFunctionName(s, j);
    FirstRulesFail(s, j, 7);
    DispatchFirstSuccess(s, i, 7);
  }

  /** The printed form of a call: its name, `(`, then the printed arguments and `)`. */
  lemma CallLayout(s: string, j: nat, f: FunctionType, args: seq<FuncNode>)
    requires Printable(BuiltinFunction(f, args)) && StartsWith(s, j, Render(BuiltinFunction(f, args)))
    ensures FunctionName(s, j) == Some(f) && j + 3 < |s| && s[j + 3] == '('
    ensures StartsWith(s, j + 4, Join(args) + ")")
    ensures |Render(BuiltinFunction(f, args))| == 4 + |Join(args)| + 1
  {
    var name := Name(f);
    var inner := Join(args);
    assert Render(BuiltinFunction(f, args)) == name + "(" + inner + ")";
    Layout3(s, j, name + "(", inner, ")");
    StartsWithSplit(s, j, name, "(");
    assert s[j + 3 + 0] == "("[0];
    CallNameMatches(s, j, f);
  }

  /** A function name written in lower case matches, ignoring case. */
  lemma CallNameMatches(s: string, j: nat, f: FunctionType)
    requires StartsWith(s, j, Name(f))
    ensures FunctionName(s, j) == Some(f)
  {
    var name := Name(f);
    forall k | 0 <= k < 3 ensures Lower(s[j + k]) == name[k] {
      assert s[j + k] == name[k];
    }
    FunctionNameSpelling(s, j, f);
  }

  lemma {:induction false} CallParses(s: string, j: nat, f: FunctionType, args: seq<FuncNode>)
    requires Printable(BuiltinFunction(f, args)) && StartsWith(s, j, Render(BuiltinFunction(f, args)))
    ensures ParseBuiltinFunc(s, j) == Parsed(BuiltinFunction(f, args), j + |Render(BuiltinFunction(f, args))|)
    decreases BuiltinFunction(f, args), 0
  {
    CallLayout(s, j, f, args);
    JoinParses(s, j + 4, args);
  }

  lemma {:induction false} GroupParses(s: string, j: nat, nodes: seq<FuncNode>)
    requires Printable(Parentheses(nodes)) && StartsWith(s, j, Render(Parentheses(nodes)))
    ensures ParseParentheses(s, j) == Parsed(Parentheses(nodes), j + |Render(Parentheses(nodes))|)
    decreases Parentheses(nodes), 0
  {
    var inner := Join(nodes);
    assert Render(Parentheses(nodes)) == "(" + inner + ")";
    assert ("(" + inner) + ")" == "(" + (inner + ")");
    StartsWithSplit(s, j, "(", Join(nodes) + ")");
    assert s[j + 0] == "("[0];
    JoinParses(s, j + 1, nodes);
  }

  /** Every printable token parses back from its spelling, wherever it stands. */
  lemma {:induction false} RenderedParses(s: string, i: nat, j: nat, n: FuncNode)
    requires i <= j <= |s| && SkipSpaces(s, i) == j
    requires Printable(n) && StartsWith(s, j, Render(n)) && EndsToken(s, j + |Render(n)|)
    ensures ParseOne(s, i) == Parsed(n, j + |Render(n)|)
    decreases n, 2
  {
    match n {
      case Int(v) => IntegerParses(s, i, j, v);
      case BinaryOperationSymbol(op) => OperatorParses(s, i, j, op);
      case BuiltinFunction(f, args) =>
        CallParses(s, j, f, args);
        DispatchFirstSuccess(s, i, 0);
      case Parentheses(nodes) => GroupDispatches(s, i, j, nodes);
      case _ => LeafParses(s, i, j, n);
    }
  }

  /** A printed group is read by the group rule, the first rule that can start with `(`. */
  lemma {:induction false} GroupDispatches(s: string, i: nat, j: nat, nodes: seq<FuncNode>)
    requires i <= j <= |s| && SkipSpaces(s, i) == j
    requires Printable(Parentheses(nodes)) && StartsWith(s, j, Render(Parentheses(nodes)))
    ensures ParseOne(s, i) == Parsed(Parentheses(nodes), j + |Render(Parentheses(nodes))|)
    decreases Parentheses(nodes), 1
  {
    StartsWithFirst(s, j, Render(Parentheses(nodes)));
    GroupParses(s, j, nodes);
    NoFunctionName(s, j);
    FirstRulesFail(s, j, 1);
    DispatchFirstSuccess(s, i, 1);
  }

  /** The interior loop reads a printed list and its closing `)`. */
  lemma {:induction false} JoinParses(s: string, p: nat, ns: seq<FuncNode>)
    requires AllPrintable(ns) && StartsWith(s, p, Join(ns) + ")")
    ensures ParseInterior(s, p, []) == Parsed(ns, p + |Join(ns)| + 1)
    decreases ns, 2
  {
    if ns == [] {
      assert s[p + 0] == (Join(ns) + ")")[0];
      InteriorClose(s, p, []);
    } else {
      PrintableSplit(ns);
      var next := JoinStep(s, p, ns);
      JoinRestParses(s, next, [ns[0]], ns[1..]);
      assert [ns[0]] + ns[1..] == ns;
    }
  }

  /** The first token of a printed interior list. */
  lemma {:induction false} JoinStep(s: string, p: nat, ns: seq<FuncNode>) returns (next: nat)
    requires AllPrintable(ns) && ns != [] && StartsWith(s, p, Join(ns) + ")")
    ensures next == p + |Render(ns[0])| && |Join(ns)| == |Render(ns[0])| + |JoinRest(ns[1..])|
    ensures StartsWith(s, next, JoinRest(ns[1..]) + ")")
    ensures ParseInterior(s, p, []) == ParseInterior(s, next, [ns[0]])
    decreases ns, 1
  {
    var first, rest := ns[0], ns[1..];
    next := p + |Render(first)|;
    JoinLayout(s, p, ns, ")");
    FollowerEndsToken(s, next, rest, ")");
    assert !IsSpace(s[p]);
    SkipSpacesTo(s, p, p);
    RenderedParses(s, p, p, first);
    InteriorStep(s, p, [], first, next);
    assert [] + [first] == [first];
  }

  lemma {:induction false} JoinRestParses(s: string, p: nat, acc: seq<FuncNode>, ms: seq<FuncNode>)
    requires AllPrintable(ms) && StartsWith(s, p, JoinRest(ms) + ")")
    ensures ParseInterior(s, p, acc) == Parsed(acc + ms, p + |JoinRest(ms)| + 1)
    decreases ms, 1
  {
    if ms == [] {
      assert s[p + 0] == (JoinRest(ms) + ")")[0];
      InteriorClose(s, p, acc);
      assert acc + ms == acc;
    } else {
      PrintableSplit(ms);
      var next := JoinRestStep(s, p, acc, ms);
      JoinRestParses(s, next, acc + [ms[0]], ms[1..]);
      assert acc + [ms[0]] + ms[1..] == acc + ms;
    }
  }

  /** The next token of a printed interior list, after its space. */
  lemma {:induction false} JoinRestStep(s: string, p: nat, acc: seq<FuncNode>, ms: seq<FuncNode>) returns (next: nat)
    requires AllPrintable(ms) && ms != [] && StartsWith(s, p, JoinRest(ms) + ")")
    ensures next == p + 1 + |Render(ms[0])| && |JoinRest(ms)| == 1 + |Render(ms[0])| + |JoinRest(ms[1..])|
    ensures StartsWith(s, next, JoinRest(ms[1..]) + ")")
    ensures ParseInterior(s, p, acc) == ParseInterior(s, next, acc + [ms[0]])
    decreases ms, 0
  {
    next := p + 1 + |Render(ms[0])|;
    JoinRestLayout(s, p, ms, ")");
    FollowerEndsToken(s, next, ms[1..], ")");
    SkipSpacesTo(s, p, p + 1);
    RenderedParses(s, p + 1, p + 1, ms[0]);
    InteriorStep(s, p, acc, ms[0], next);
  }

  lemma {:induction false} ParseFromRest(s: string, p: nat, acc: seq<FuncNode>, ms: seq<FuncNode>)
    requires AllPrintable(ms) && StartsWith(s, p, JoinRest(ms) + "") && p + |JoinRest(ms)| == |s|
    ensures ParseFrom(s, p, acc) == Evaluates(acc + ms)
    decreases ms
  {
    if ms == [] {
      assert acc + ms == acc;
    } else {
      PrintableSplit(ms);
      var next := FromRestStep(s, p, acc, ms);
      ParseFromRest(s, next, acc + [ms[0]], ms[1..]);
      assert acc + [ms[0]] + ms[1..] == acc + ms;
    }
  }

  /** The top-level loop reads the next printed token, after its space. */
  lemma FromRestStep(s: string, p: nat, acc: seq<FuncNode>, ms: seq<FuncNode>) returns (next: nat)
    requires AllPrintable(ms) && ms != [] && StartsWith(s, p, JoinRest(ms) + "") && p + |JoinRest(ms)| == |s|
    ensures next == p + 1 + |Render(ms[0])| && next <= |s|
    ensures StartsWith(s, next, JoinRest(ms[1..]) + "") && next + |JoinRest(ms[1..])| == |s|
    ensures ParseFrom(s, p, acc) == ParseFrom(s, next, acc + [ms[0]])
  {
    next := p + 1 + |Render(ms[0])|;
    JoinRestLayout(s, p, ms, "");
    FollowerEndsToken(s, next, ms[1..], "");
    SkipSpacesTo(s, p, p + 1);
    RenderedParses(s, p, p + 1, ms[0]);
    FromStep(s, p, acc, ms[0], next);
  }

  /** The top-level loop reads the first printed token. */
  lemma FromFirstStep(s: string, ns: seq<FuncNode>) returns (next: nat)
    requires AllPrintable(ns) && ns != [] && s == Join(ns)
    ensures next == |Render(ns[0])| && next <= |s|
    ensures StartsWith(s, next, JoinRest(ns[1..]) + "") && next + |JoinRest(ns[1..])| == |s|
    ensures ParseFrom(s, 0, []) == ParseFrom(s, next, [ns[0]])
  {
    next := |Render(ns[0])|;
    assert s[0..|s|] == s + "";
    JoinLayout(s, 0, ns, "");
    FollowerEndsToken(s, next, ns[1..], "");
    SkipSpacesTo(s, 0, 0);
    RenderedParses(s, 0, 0, ns[0]);
    FromStep(s, 0, [], ns[0], next);
    assert [] + [ns[0]] == [ns[0]];
  }

  /**
    Round trip: compiling the printed form of a list of printable tokens gives a formula
    that evaluates exactly that list.
   */
  lemma CompileJoin(ns: seq<FuncNode>)
    requires AllPrintable(ns)
    ensures Compile(Join(ns)) == Evaluates(ns)
  {
    if ns != [] {
      var s := Join(ns);
      var next := FromFirstStep(s, ns);
      ParseFromRest(s, next, [ns[0]], ns[1..]);
      assert [ns[0]] + ns[1..] == ns;
    }
  }

  // ---------------------------------------------------------------------------
  // What the parser produces: never a float literal and never a negative integer, so
  // every formula that parses has a printed form, and printing it is a normal form.

  lemma {:induction false} ParseOnePrintable(s: string, i: nat)
    requires i <= |s|
    ensures ParseOne(s, i).Parsed? ==> Printable(ParseOne(s, i).value)
    decreases |s| - i, 3, 0
  {
    TryRulesPrintable(s, i, 0, NoParserMatched);
  }

  lemma {:induction false} TryRulesPrintable(s: string, i: nat, k: nat, lastErr: Error)
    requires i <= |s| && k <= |Registry|
    ensures TryRules(s, i, k, lastErr).Parsed? ==> Printable(TryRules(s, i, k, lastErr).value)
    decreases |s| - i, 2, |Registry| - k
  {
    if k < |Registry| {
      var j := SkipSpaces(s, i);
      ApplyRulePrintable(Registry[k], s, j);
      match ApplyRule(Registry[k], s, j)
      case Parsed(_, _) =>
      case Failed(e) => TryRulesPrintable(s, i, k + 1, e);
    }
  }

  lemma {:induction false} ApplyRulePrintable(rule: Rule, s: string, i: nat)
    requires i <= |s|
    ensures ApplyRule(rule, s, i).Parsed? ==> Printable(ApplyRule(rule, s, i).value)
    decreases |s| - i, 1, 0
  {
    match rule
    case BuiltinFuncRule => BuiltinFuncPrintable(s, i);
    case ParenthesesRule => ParenthesesPrintable(s, i);
    case _ =>
  }

  lemma {:induction false} BuiltinFuncPrintable(s: string, i: nat)
    requires i <= |s|
    ensures ParseBuiltinFunc(s, i).Parsed? ==> Printable(ParseBuiltinFunc(s, i).value)
    decreases |s| - i, 0, 0
  {
    if FunctionName(s, i).Some? && i + 3 < |s| && s[i + 3] == '(' {
      InteriorPrintable(s, i + 4, []);
    }
  }

  lemma {:induction false} ParenthesesPrintable(s: string, i: nat)
    requires i <= |s|
    ensures ParseParentheses(s, i).Parsed? ==> Printable(ParseParentheses(s, i).value)
    decreases |s| - i, 0, 0
  {
    if i < |s| && s[i] == '(' {
      InteriorPrintable(s, i + 1, []);
    }
  }

  lemma {:induction false} InteriorPrintable(s: string, p: nat, acc: seq<FuncNode>)
    requires p <= |s| && AllPrintable(acc)
    ensures ParseInterior(s, p, acc).Parsed? ==> AllPrintable(ParseInterior(s, p, acc).value)
    decreases |s| - p, 4, 0
  {
    var q := SkipSpaces(s, p);
    ParseOnePrintable(s, q);
    match ParseOne(s, q)
    case Parsed(node, next) =>
      assert AllPrintable(acc + [node]);
      InteriorPrintable(s, next, acc + [node]);
    case Failed(_) =>
  }

  lemma {:induction false} ParseFromPrintable(s: string, i: nat, acc: seq<FuncNode>)
    requires i <= |s| && AllPrintable(acc)
    ensures ParseFrom(s, i, acc).Evaluates? ==> AllPrintable(ParseFrom(s, i, acc).nodes)
    decreases |s| - i
  {
    if i < |s| {
      ParseOnePrintable(s, i);
      match ParseOne(s, i)
      case Parsed(node, next) =>
        assert AllPrintable(acc + [node]);
        ParseFromPrintable(s, next, acc + [node]);
      case Failed(_) =>
    }
  }

  /** Every token of a formula that parses has a printed form. */
  lemma CompilePrintable(text: string)
    ensures Compile(text).Evaluates? ==> AllPrintable(Compile(text).nodes)
  {
    ParseFromPrintable(text, 0, []);
  }

  /**
    Printing a formula that parses and parsing the print gives the same formula: the
    printed form is a normal form of the text, with its spacing made canonical.
   */
  lemma CompileNormalForm(text: string)
    ensures var f := Compile(text);
      f.Evaluates? ==> AllPrintable(f.nodes) && Compile(Join(f.nodes)) == f
  {
    if Compile(text).Evaluates? {
      CompilePrintable(text);
      CompileJoin(Compile(text).nodes);
    }
  }
}
