/**
  The reduction of a resolved token list to a value (`compile_cleaned_nodes`): a value
  stack and an operator stack, one look-back reduction per incoming operator, then a
  drain that applies the stacked operators in the order they were pushed.

  Numbers are kept symbolic: `Value` is the free term algebra over the leaves the
  source produces, `Applied` standing for `Operator::run` and `Called` for
  `FunctionType::perform_f32_func`. Every floating-point reading of the source's
  arithmetic factors through these terms, so what is proved here is the stack
  discipline itself.
 */
module Reduction {
  import opened Results
  import Tokens
  import opened Substitution

  datatype Value =
    | IntValue(i: int)                                              // `i as f32`
    | FloatValue(x: Tokens.F32)
    | Applied(op: Tokens.Operator, left: Value, right: Value)       // `op.run(left, right)`
    | Called(func: Tokens.FunctionType, arg: Value)                 // `func.perform_f32_func(arg)`

  /** The two `Vec`s of the reduction; the top of each stack is its last element. */
  datatype Stacks = Stacks(numbers: seq<Value>, operators: seq<Tokens.Operator>)

  function Last<T>(s: seq<T>): T
    requires s != []
  {
    s[|s| - 1]
  }

  function DropLast<T>(s: seq<T>): seq<T>
    requires s != []
  {
    s[..|s| - 1]
  }

  /**
    Whether an incoming `op` triggers the one look-back reduction: exactly when the
    stacked top is `^` and `op` is not, or the stacked top is `*` or `/` and `op` is
    `+` or `-`. Operators of equal precedence never look back.
   */
  function LooksBack(st: Stacks, op: Tokens.Operator): (b: bool)
    ensures b <==> (st.operators != [] &&
                    var top := Last(st.operators);
                    || (top == Tokens.Exponentiation && op != Tokens.Exponentiation)
                    || (top in {Tokens.Multiplication, Tokens.Division} && op in {Tokens.Addition, Tokens.Subtraction}))
  {
    st.operators != [] && Tokens.Precedence(Last(st.operators)) > Tokens.Precedence(op)
  }

  /**
    An operator token arrives: at most one reduction of the stacked top operator (only
    when its precedence is strictly greater), then the incoming operator is pushed.
   */
  function Shift(st: Stacks, op: Tokens.Operator): (r: Result<Stacks>)
    ensures r.Err? ==> r.error == ErroneousBinaryOperation
  {
    if LooksBack(st, op) then
      var n := |st.numbers|;
      if n < 2 then Err(ErroneousBinaryOperation)
      else
        var reduced := Applied(Last(st.operators), st.numbers[n - 2], st.numbers[n - 1]);
        Ok(Stacks(st.numbers[..n - 2] + [reduced], DropLast(st.operators) + [op]))
    else
      Ok(Stacks(st.numbers, st.operators + [op]))
  }

  /**
    The `for` loop over the tokens: a left fold of `Step` from the stacks `st`, stopping
    at the first error.
   */
  function Fold(st: Stacks, ns: seq<FuncNodeCleaned>): (r: Result<Stacks>)
    ensures r.Err? ==> r.error in {InputIsEmpty, ErroneousBinaryOperation}
    decreases ns, 1
  {
    if ns == [] then Ok(st)
    else
      match Step(st, ns[0])
      case Err(e) => Err(e)
      case Ok(next) => Fold(next, ns[1..])
  }

  /** One token: a leaf or a nested reduction pushes a value, an operator shifts. */
  function Step(st: Stacks, t: FuncNodeCleaned): (r: Result<Stacks>)
    ensures r.Err? ==> r.error in {InputIsEmpty, ErroneousBinaryOperation}
    decreases t, 0
  {
    match t
    case BinaryOperationSymbol(op) => Shift(st, op)
    case Float(x) => Ok(Stacks(st.numbers + [FloatValue(x)], st.operators))
    case Int(i) => Ok(Stacks(st.numbers + [IntValue(i)], st.operators))
    case BuiltinFunction(f, inner) =>
      var v :- Reduce(inner);
      Ok(Stacks(st.numbers + [Called(f, v)], st.operators))
    case Parentheses(inner) =>
      var v :- Reduce(inner);
      Ok(Stacks(st.numbers + [v], st.operators))
  }

  /** The drain: operators in insertion order, each combining the top two values. */
  function Drain(numbers: seq<Value>, operators: seq<Tokens.Operator>): (r: Result<seq<Value>>)
    ensures r.Err? ==> r.error == ErroneousBinaryOperation
    ensures r.Err? <==> operators != [] && |numbers| <= |operators|
    ensures r.Ok? ==> |r.value| == |numbers| - |operators|
    decreases |operators|
  {
    if operators == [] then Ok(numbers)
    else if |numbers| < 2 then Err(ErroneousBinaryOperation)
    else
      var n := |numbers|;
      Drain(numbers[..n - 2] + [Applied(operators[0], numbers[n - 2], numbers[n - 1])], operators[1..])
  }

  /** `compile_cleaned_nodes`: the bottom value after the drain, or the error. */
  function Reduce(ns: seq<FuncNodeCleaned>): (r: Result<Value>)
    ensures r.Err? ==> r.error in {InputIsEmpty, ErroneousBinaryOperation}
    ensures ns == [] ==> r == Err(InputIsEmpty)
    decreases ns, 2
  {
    var st :- Fold(Stacks([], []), ns);
    var numbers :- Drain(st.numbers, st.operators);
    if numbers == [] then Err(InputIsEmpty) else Ok(numbers[0])
  }

  /** `translate_nodes`: substitute the environment, then reduce. */
  function TranslateNodes(nodes: seq<Tokens.FuncNode>, time: Tokens.F32, p: Tokens.Point): (r: Result<Value>)
    ensures r.Err? ==> r.error in {InputIsEmpty, ErroneousBinaryOperation}
    ensures nodes == [] ==> r == Err(InputIsEmpty)
    ensures (forall k :: 0 <= k < |nodes| ==> VariableFree(nodes[k])) ==>
              r == Reduce(SimplifyAll(nodes, 0.0, Tokens.Point(0.0, 0.0, 0.0)))
  {
    SimplifyAllIndependentOfEnvironment(nodes, time, p, 0.0, Tokens.Point(0.0, 0.0, 0.0));
    Reduce(SimplifyAll(nodes, time, p))
  }

  // ---------------------------------------------------------------------------
  // The imperative reduction, proved against `Reduce`.

  /** `compile_cleaned_nodes` as the source writes it: two stacks, a `for` loop and a drain loop. */
  method CompileCleanedNodes(nodes: seq<FuncNodeCleaned>) returns (r: Result<Value>)
    ensures r == Reduce(nodes)
    decreases nodes
  {
    var numbers: seq<Value> := [];
    var operators: seq<Tokens.Operator> := [];
    var i := 0;
    while i < |nodes|
      invariant 0 <= i <= |nodes|
      invariant Fold(Stacks([], []), nodes) == Fold(Stacks(numbers, operators), nodes[i..])
    {
      ghost var before := Stacks(numbers, operators);
      assert nodes[i..][0] == nodes[i] && nodes[i..][1..] == nodes[i + 1..];
      match nodes[i] {
        case BinaryOperationSymbol(op) =>
          var shifted := PushOperator(numbers, operators, op);
          if shifted.Err? {
            return Err(shifted.error);
          }
          numbers, operators := shifted.value.numbers, shifted.value.operators;
        case Float(x) =>
          numbers := numbers + [FloatValue(x)];
        case Int(x) =>
          numbers := numbers + [IntValue(x)];
        case BuiltinFunction(f, inner) =>
          var v := CompileCleanedNodes(inner);
          if v.Err? {
            return Err(v.error);
          }
          numbers := numbers + [Called(f, v.value)];
        case Parentheses(inner) =>
          var v := CompileCleanedNodes(inner);
          if v.Err? {
            return Err(v.error);
          }
          numbers := numbers + [v.value];
      }
      assert Step(before, nodes[i]) == Ok(Stacks(numbers, operators));
      i := i + 1;
    }
    var drained := DrainOperators(numbers, operators);
    if drained.Err? {
      return Err(drained.error);
    }
    numbers := drained.value;
    if numbers == [] {
      return Err(InputIsEmpty);
    }
    return Ok(numbers[0]);
  }

  /** The operator arm of the loop: the look-back reduction with its three pops, then the push. */
  method PushOperator(numbers: seq<Value>, operators: seq<Tokens.Operator>, op: Tokens.Operator)
    returns (r: Result<Stacks>)
    ensures r == Shift(Stacks(numbers, operators), op)
  {
    var values, ops := numbers, operators;
    if ops != [] {
      var stashOp := ops[|ops| - 1];
      if Tokens.Precedence(stashOp) > Tokens.Precedence(op) {
        var oper := ops[|ops| - 1];
        ops := ops[..|ops| - 1];
        var right: Option<Value> := None;
        if values != [] {
          right := Some(values[|values| - 1]);
          values := values[..|values| - 1];
        }
        var left: Option<Value> := None;
        if values != [] {
          left := Some(values[|values| - 1]);
          values := values[..|values| - 1];
        }
        if right.None? || left.None? {
          return Err(ErroneousBinaryOperation);
        }
        assert values == numbers[..|numbers| - 2] && left.value == numbers[|numbers| - 2];
        values := values + [Applied(oper, left.value, right.value)];
      }
    }
    ops := ops + [op];
    return Ok(Stacks(values, ops));
  }

  /** The drain loop `for operation in operators`, visiting the bottom of the stack first. */
  method DrainOperators(numbers: seq<Value>, operators: seq<Tokens.Operator>)
    returns (r: Result<seq<Value>>)
    ensures r == Drain(numbers, operators)
  {
    var values := numbers;
    var k := 0;
    while k < |operators|
      invariant 0 <= k <= |operators|
      invariant Drain(numbers, operators) == Drain(values, operators[k..])
    {
      var operation := operators[k];
      if |values| < 2 {
        return Err(ErroneousBinaryOperation);
      }
      var rightOperand := values[|values| - 1];
      var leftOperand := values[|values| - 2];
      values := values[..|values| - 2] + [Applied(operation, leftOperand, rightOperand)];
      assert operators[k..][1..] == operators[k + 1..];
      k := k + 1;
    }
    assert operators[k..] == [];
    return Ok(values);
  }
}
