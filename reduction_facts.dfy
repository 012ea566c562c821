/** What the reduction promises: the drain order, balanced streams, the bottom value, the errors. */
module ReductionFacts {
  import opened Results
  import Tokens
  import opened Substitution
  import opened Reduction

  /**
    An independent description of the drain of a balanced stack (one more value than
    operators): the LAST stacked operator combines the BOTTOM value with the result of
    draining the rest, so the first-pushed operator is applied innermost.
   */
  function Nest(vs: seq<Value>, ops: seq<Tokens.Operator>): Value
    requires |vs| == |ops| + 1
    decreases |ops|
  {
    if ops == [] then vs[0] else Applied(Last(ops), vs[0], Nest(vs[1..], DropLast(ops)))
  }

  /** Combining the top two values with `o` and draining `rest` is draining `[o] + rest`. */
  lemma {:induction false} NestStep(vs: seq<Value>, o: Tokens.Operator, rest: seq<Tokens.Operator>)
    requires |vs| == |rest| + 2
    ensures var n := |vs|;
      Nest(vs[..n - 2] + [Applied(o, vs[n - 2], vs[n - 1])], rest) == Nest(vs, [o] + rest)
    decreases |rest|
  {
    var n := |vs|;
    var folded := vs[..n - 2] + [Applied(o, vs[n - 2], vs[n - 1])];
    if rest == [] {
      assert folded == [Applied(o, vs[0], vs[1])];
      assert DropLast([o]) == [];
    } else {
      var tail := vs[1..];
      assert folded[0] == vs[0];
      assert folded[1..] == tail[..|tail| - 2] + [Applied(o, tail[|tail| - 2], tail[|tail| - 1])];
      NestStep(tail, o, DropLast(rest));
      assert DropLast([o] + rest) == [o] + DropLast(rest);
      assert Last([o] + rest) == Last(rest);
    }
  }

  /** The drain of a balanced stack leaves exactly one value, `Nest` of the stacks. */
  lemma {:induction false} DrainNest(vs: seq<Value>, ops: seq<Tokens.Operator>)
    requires |vs| == |ops| + 1
    ensures Drain(vs, ops) == Ok([Nest(vs, ops)])
    decreases |ops|
  {
    if ops == [] {
      assert vs == [vs[0]];
    } else {
      var n := |vs|;
      var folded := vs[..n - 2] + [Applied(ops[0], vs[n - 2], vs[n - 1])];
      DrainNest(folded, ops[1..]);
      NestStep(vs, ops[0], ops[1..]);
      assert [ops[0]] + ops[1..] == ops;
    }
  }

  // ---------------------------------------------------------------------------
  // Unfolding the fold.

  /** The fold of a tail begins with the step on its first token. */
  lemma FoldAt(st: Stacks, ns: seq<FuncNodeCleaned>, i: nat)
    requires i < |ns|
    ensures Fold(st, ns[i..])
         == match Step(st, ns[i]) case Err(e) => Err(e) case Ok(next) => Fold(next, ns[i + 1..])
  {
    assert ns[i..][0] == ns[i] && ns[i..][1..] == ns[i + 1..];
  }

  /** A literal token pushes its value. */
  lemma FoldPush(st: Stacks, ns: seq<FuncNodeCleaned>, i: nat, numbers: seq<Value>)
    requires i < |ns| && IsLeaf(ns[i]) && numbers == st.numbers + [Leaf(ns[i])]
    ensures Fold(st, ns[i..]) == Fold(Stacks(numbers, st.operators), ns[i + 1..])
  {
    FoldAt(st, ns, i);
  }

  /** An operator token that does not look back is pushed. */
  lemma FoldShiftPush(st: Stacks, ns: seq<FuncNodeCleaned>, i: nat, operators: seq<Tokens.Operator>)
    requires i < |ns| && ns[i].BinaryOperationSymbol? && !LooksBack(st, ns[i].op)
    requires operators == st.operators + [ns[i].op]
    ensures Fold(st, ns[i..]) == Fold(Stacks(st.numbers, operators), ns[i + 1..])
  {
    FoldAt(st, ns, i);
  }

  /** An operator token that looks back reduces the top two values, then is pushed. */
  lemma FoldShiftReduce(st: Stacks, ns: seq<FuncNodeCleaned>, i: nat, numbers: seq<Value>, operators: seq<Tokens.Operator>)
    requires i < |ns| && ns[i].BinaryOperationSymbol? && LooksBack(st, ns[i].op) && |st.numbers| >= 2
    requires var n := |st.numbers|;
      numbers == st.numbers[..n - 2] + [Applied(Last(st.operators), st.numbers[n - 2], st.numbers[n - 1])]
    requires operators == DropLast(st.operators) + [ns[i].op]
    ensures Fold(st, ns[i..]) == Fold(Stacks(numbers, operators), ns[i + 1..])
  {
    FoldAt(st, ns, i);
  }

  /** Folding a concatenation folds the first part, then the second from where it left off. */
  lemma {:induction false} FoldAppend(st: Stacks, a: seq<FuncNodeCleaned>, b: seq<FuncNodeCleaned>)
    ensures Fold(st, a + b)
         == match Fold(st, a) case Err(e) => Err(e) case Ok(mid) => Fold(mid, b)
    decreases |a|
  {
    if a == [] {
      assert a + b == b;
    } else {
      assert (a + b)[0] == a[0] && (a + b)[1..] == a[1..] + b;
      match Step(st, a[0]) {
        case Err(e) =>
        case Ok(next) => FoldAppend(next, a[1..], b);
      }
    }
  }

  // ---------------------------------------------------------------------------
  // Balanced streams never hit the arity error.

  /** A node whose nested lists are themselves well formed. */
  predicate WellFormedNode(t: FuncNodeCleaned)
    decreases t, 1
  {
    match t
    case BuiltinFunction(_, inner) => WellFormed(inner)
    case Parentheses(inner) => WellFormed(inner)
    case _ => true
  }

  /** Values and operators alternate, starting and ending with a value, at every depth. */
  predicate WellFormed(ns: seq<FuncNodeCleaned>)
    decreases ns, 0
  {
    && |ns| % 2 == 1
    && forall k :: 0 <= k < |ns| ==>
         (k % 2 == 0 <==> !ns[k].BinaryOperationSymbol?) && WellFormedNode(ns[k])
  }

  /**
    Folding the tail `ns[i..]` of a well-formed list from stacks holding one more value
    than operators after a value position (as many before one) never fails and ends with
    exactly one more value than operators.
   */
  lemma {:induction false} FoldBalanced(ns: seq<FuncNodeCleaned>, i: nat, st: Stacks)
    requires WellFormed(ns) && i <= |ns|
    requires |st.numbers| == |st.operators| + i % 2
    ensures Fold(st, ns[i..]).Ok?
    ensures |Fold(st, ns[i..]).value.numbers| == |Fold(st, ns[i..]).value.operators| + 1
    decreases ns, 0, |ns| - i
  {
    if i < |ns| {
      FoldAt(st, ns, i);
      var t := ns[i];
      assert WellFormedNode(t);
      match t {
        case BinaryOperationSymbol(op) =>
          assert i % 2 == 1;
        case BuiltinFunction(_, inner) =>
          WellFormedReduces(inner);
        case Parentheses(inner) =>
          WellFormedReduces(inner);
        case _ =>
      }
      FoldBalanced(ns, i + 1, Step(st, t).value);
    }
  }

  /** A well-formed list always reduces to a value: the drain consumes every operator exactly. */
  lemma {:induction false} WellFormedReduces(ns: seq<FuncNodeCleaned>)
    requires WellFormed(ns)
    ensures Reduce(ns).Ok?
    decreases ns, 1
  {
    FoldBalanced(ns, 0, Stacks([], []));
    assert ns[0..] == ns;
    var st := Fold(Stacks([], []), ns).value;
    DrainNest(st.numbers, st.operators);
  }

  // ---------------------------------------------------------------------------
  // The result is the bottom value.

  predicate IsLeaf(t: FuncNodeCleaned)
  {
    t.Int? || t.Float?
  }

  function Leaf(t: FuncNodeCleaned): Value
    requires IsLeaf(t)
  {
    match t
    case Int(i) => IntValue(i)
    case Float(x) => FloatValue(x)
  }

  lemma {:induction false} FoldLeaves(ns: seq<FuncNodeCleaned>, i: nat, st: Stacks)
    requires i <= |ns| && forall k :: 0 <= k < |ns| ==> IsLeaf(ns[k])
    ensures Fold(st, ns[i..]).Ok?
    ensures Fold(st, ns[i..]).value.operators == st.operators
    ensures |Fold(st, ns[i..]).value.numbers| == |st.numbers| + |ns| - i
    ensures st.numbers != [] ==> Fold(st, ns[i..]).value.numbers[0] == st.numbers[0]
    decreases |ns| - i
  {
    if i < |ns| {
      FoldAt(st, ns, i);
      FoldLeaves(ns, i + 1, Step(st, ns[i]).value);
    }
  }

  /**
    A list of literals without operators evaluates to its FIRST literal: the result is
    the bottom of the value stack (`numbers.get(0)`), so `x y` yields `x`.
   */
  lemma ReduceYieldsBottom(ns: seq<FuncNodeCleaned>)
    requires ns != [] && forall k :: 0 <= k < |ns| ==> IsLeaf(ns[k])
    ensures Reduce(ns) == Ok(Leaf(ns[0]))
  {
    assert ns[0..] == ns;
    FoldPush(Stacks([], []), ns, 0, [Leaf(ns[0])]);
    FoldLeaves(ns, 1, Stacks([Leaf(ns[0])], []));
  }

  // ---------------------------------------------------------------------------
  // Errors.

  /**
    The error of a nested list is the error of the enclosing list, provided the tokens
    before it were folded without error.
   */
  lemma NestedErrorPropagates(ns: seq<FuncNodeCleaned>, i: nat)
    requires i < |ns| && Fold(Stacks([], []), ns[..i]).Ok?
    requires (ns[i].Parentheses? && Reduce(ns[i].nodes).Err?) || (ns[i].BuiltinFunction? && Reduce(ns[i].args).Err?)
    ensures Reduce(ns).Err?
    ensures Reduce(ns).error == (if ns[i].Parentheses? then Reduce(ns[i].nodes).error else Reduce(ns[i].args).error)
  {
    assert ns == ns[..i] + ns[i..];
    FoldAppend(Stacks([], []), ns[..i], ns[i..]);
    assert ns[i..][0] == ns[i];
  }

  /** A lone operator, or an operator with one operand, is the arity error. */
  lemma MissingOperand(a: Tokens.I64, op: Tokens.Operator)
    ensures Reduce([BinaryOperationSymbol(op)]) == Err(ErroneousBinaryOperation)
    ensures Reduce([Int(a), BinaryOperationSymbol(op)]) == Err(ErroneousBinaryOperation)
    ensures Reduce([BinaryOperationSymbol(op), Int(a)]) == Err(ErroneousBinaryOperation)
  {
    var lone := [BinaryOperationSymbol(op)];
    FoldShiftPush(Stacks([], []), lone, 0, [op]);
    var one := [Int(a), BinaryOperationSymbol(op)];
    FoldPush(Stacks([], []), one, 0, [IntValue(a)]);
    FoldShiftPush(Stacks([IntValue(a)], []), one, 1, [op]);
    var two := [BinaryOperationSymbol(op), Int(a)];
    FoldShiftPush(Stacks([], []), two, 0, [op]);
    FoldPush(Stacks([], [op]), two, 1, [IntValue(a)]);
  }

  /** An empty nested group fails the whole reduction with the empty-input error. */
  lemma EmptyGroupFails(ns: seq<FuncNodeCleaned>)
    requires ns != [] && ns[0] == Parentheses([])
    ensures Reduce(ns) == Err(InputIsEmpty)
  {
    NestedErrorPropagates(ns, 0);
  }

  // ---------------------------------------------------------------------------
  // The look-back rule.

  /**
    An incoming operator reduces at most once, and only when the stacked top operator
    binds strictly tighter: the reduction pops the operator, then the right and then the
    left operand and pushes their combination; the incoming operator is always pushed.
   */
  lemma LookBackRule(st: Stacks, op: Tokens.Operator)
    ensures var r := Shift(st, op);
      && (r.Err? <==> LooksBack(st, op) && |st.numbers| < 2)
      && (r.Ok? ==> r.value.operators
                    == (if LooksBack(st, op) then DropLast(st.operators) else st.operators) + [op])
      && (r.Ok? && !LooksBack(st, op) ==> r.value.numbers == st.numbers)
      && (r.Ok? && LooksBack(st, op) ==>
           var n := |st.numbers|;
           r.value.numbers
           == st.numbers[..n - 2] + [Applied(Last(st.operators), st.numbers[n - 2], st.numbers[n - 1])])
  {
  }

  lemma NestOfTwo(a: Value, b: Value, o: Tokens.Operator)
    ensures Nest([a, b], [o]) == Applied(o, a, b)
  {
    assert [a, b][1..] == [b];
    assert DropLast([o]) == [];
  }

  lemma NestOfThree(a: Value, b: Value, c: Value, o1: Tokens.Operator, o2: Tokens.Operator)
    ensures Nest([a, b, c], [o1, o2]) == Applied(o2, a, Applied(o1, b, c))
  {
    assert [a, b, c][1..] == [b, c];
    assert DropLast([o1, o2]) == [o1];
    NestOfTwo(b, c, o1);
  }

  // ---------------------------------------------------------------------------
  // Worked examples of the look-back rule and of the drain order.

  /**
    `1 + 2 * 3`: `*` does not look back past `+` (5 is not greater than 10), and the
    drain applies `+` first, to the top two values, so the result is `1 * (2 + 3)`.
   */
  lemma AddThenMultiply()
    ensures Reduce([Int(1), BinaryOperationSymbol(Tokens.Addition), Int(2),
                    BinaryOperationSymbol(Tokens.Multiplication), Int(3)])
         == Ok(Applied(Tokens.Multiplication, IntValue(1),
                       Applied(Tokens.Addition, IntValue(2), IntValue(3))))
  {
    var add, mul := Tokens.Addition, Tokens.Multiplication;
    var ns := [Int(1), BinaryOperationSymbol(add), Int(2), BinaryOperationSymbol(mul), Int(3)];
    assert ns[0..] == ns;
    FoldPush(Stacks([], []), ns, 0, [IntValue(1)]);
    FoldShiftPush(Stacks([IntValue(1)], []), ns, 1, [add]);
    FoldPush(Stacks([IntValue(1)], [add]), ns, 2, [IntValue(1), IntValue(2)]);
    FoldShiftPush(Stacks([IntValue(1), IntValue(2)], [add]), ns, 3, [add, mul]);
    FoldPush(Stacks([IntValue(1), IntValue(2)], [add, mul]), ns, 4, [IntValue(1), IntValue(2), IntValue(3)]);
    DrainNest([IntValue(1), IntValue(2), IntValue(3)], [add, mul]);
    NestOfThree(IntValue(1), IntValue(2), IntValue(3), add, mul);
  }

  /** `1 * 2 + 3`: `+` looks back once and reduces `1 * 2`; the drain then adds `3`. */
  lemma MultiplyThenAdd()
    ensures Reduce([Int(1), BinaryOperationSymbol(Tokens.Multiplication), Int(2),
                    BinaryOperationSymbol(Tokens.Addition), Int(3)])
         == Ok(Applied(Tokens.Addition, Applied(Tokens.Multiplication, IntValue(1), IntValue(2)), IntValue(3)))
  {
    var add, mul := Tokens.Addition, Tokens.Multiplication;
    var product := Applied(mul, IntValue(1), IntValue(2));
    var ns := [Int(1), BinaryOperationSymbol(mul), Int(2), BinaryOperationSymbol(add), Int(3)];
    assert ns[0..] == ns;
    FoldPush(Stacks([], []), ns, 0, [IntValue(1)]);
    FoldShiftPush(Stacks([IntValue(1)], []), ns, 1, [mul]);
    FoldPush(Stacks([IntValue(1)], [mul]), ns, 2, [IntValue(1), IntValue(2)]);
    FoldShiftReduce(Stacks([IntValue(1), IntValue(2)], [mul]), ns, 3, [product], [add]);
    FoldPush(Stacks([product], [add]), ns, 4, [product, IntValue(3)]);
    DrainNest([product, IntValue(3)], [add]);
    NestOfTwo(product, IntValue(3), add);
  }

  /**
    The look-back happens at most once: in `2 * 3 ^ 4 - 5` the `-` reduces `3 ^ 4` and
    leaves the `*` beneath it stacked; the drain then applies `*` to the top two values
    before `-`, giving `2 - ((3 ^ 4) * 5)`.
   */
  lemma SingleLookBack()
    ensures Reduce([Int(2), BinaryOperationSymbol(Tokens.Multiplication), Int(3),
                    BinaryOperationSymbol(Tokens.Exponentiation), Int(4),
                    BinaryOperationSymbol(Tokens.Subtraction), Int(5)])
         == Ok(Applied(Tokens.Subtraction, IntValue(2),
                 Applied(Tokens.Multiplication,
                   Applied(Tokens.Exponentiation, IntValue(3), IntValue(4)), IntValue(5))))
  {
    var mul, exp, sub := Tokens.Multiplication, Tokens.Exponentiation, Tokens.Subtraction;
    var power := Applied(exp, IntValue(3), IntValue(4));
    SingleLookBackStacks();
    DrainNest([IntValue(2), power, IntValue(5)], [mul, sub]);
    NestOfThree(IntValue(2), power, IntValue(5), mul, sub);
  }

  /** The stacks before the drain of `2 * 3 ^ 4 - 5`. */
  lemma SingleLookBackStacks()
    ensures Fold(Stacks([], []), [Int(2), BinaryOperationSymbol(Tokens.Multiplication), Int(3),
                                  BinaryOperationSymbol(Tokens.Exponentiation), Int(4),
                                  BinaryOperationSymbol(Tokens.Subtraction), Int(5)])
         == Ok(Stacks([IntValue(2), Applied(Tokens.Exponentiation, IntValue(3), IntValue(4)), IntValue(5)],
                      [Tokens.Multiplication, Tokens.Subtraction]))
  {
    SingleLookBackPrefix();
    SingleLookBackSuffix();
  }

  /** The first four tokens of `2 * 3 ^ 4 - 5` only push: nothing binds tighter yet. */
  lemma SingleLookBackPrefix()
    ensures Fold(Stacks([], []), [Int(2), BinaryOperationSymbol(Tokens.Multiplication), Int(3),
                                  BinaryOperationSymbol(Tokens.Exponentiation), Int(4),
                                  BinaryOperationSymbol(Tokens.Subtraction), Int(5)])
         == Fold(Stacks([IntValue(2), IntValue(3)], [Tokens.Multiplication, Tokens.Exponentiation]),
                 [Int(4), BinaryOperationSymbol(Tokens.Subtraction), Int(5)])
  {
    var mul, exp, sub := Tokens.Multiplication, Tokens.Exponentiation, Tokens.Subtraction;
    var ns := [Int(2), BinaryOperationSymbol(mul), Int(3), BinaryOperationSymbol(exp), Int(4),
               BinaryOperationSymbol(sub), Int(5)];
    assert ns[0..] == ns;
    FoldPush(Stacks([], []), ns, 0, [IntValue(2)]);
    FoldShiftPush(Stacks([IntValue(2)], []), ns, 1, [mul]);
    FoldPush(Stacks([IntValue(2)], [mul]), ns, 2, [IntValue(2), IntValue(3)]);
    FoldShiftPush(Stacks([IntValue(2), IntValue(3)], [mul]), ns, 3, [mul, exp]);
    assert ns[4..] == [Int(4), BinaryOperationSymbol(sub), Int(5)];
  }

  /** The `-` finds `^` on top, binding tighter, and reduces `3 ^ 4` only. */
  lemma SingleLookBackSuffix()
    ensures Fold(Stacks([IntValue(2), IntValue(3)], [Tokens.Multiplication, Tokens.Exponentiation]),
                 [Int(4), BinaryOperationSymbol(Tokens.Subtraction), Int(5)])
         == Ok(Stacks([IntValue(2), Applied(Tokens.Exponentiation, IntValue(3), IntValue(4)), IntValue(5)],
                      [Tokens.Multiplication, Tokens.Subtraction]))
  {
    var mul, exp, sub := Tokens.Multiplication, Tokens.Exponentiation, Tokens.Subtraction;
    var power := Applied(exp, IntValue(3), IntValue(4));
    var ns := [Int(4), BinaryOperationSymbol(sub), Int(5)];
    var vs := [IntValue(2), IntValue(3), IntValue(4)];
    assert ns[0..] == ns;
    FoldPush(Stacks([IntValue(2), IntValue(3)], [mul, exp]), ns, 0, vs);
    assert Last([mul, exp]) == exp && DropLast([mul, exp]) == [mul];
    assert LooksBack(Stacks(vs, [mul, exp]), sub);
    assert vs[..1] == [IntValue(2)];
    FoldShiftReduce(Stacks(vs, [mul, exp]), ns, 1, [IntValue(2), power], [mul, sub]);
    FoldPush(Stacks([IntValue(2), power], [mul, sub]), ns, 2, [IntValue(2), power, IntValue(5)]);
    assert ns[3..] == [];
  }
}
