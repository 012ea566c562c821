/**
  The vocabulary of the formula engine (src/parsing_function.rs): builtin functions,
  binary operators with their precedence, the parse-time token tree `FuncNode` and
  the evaluation point.
 */
module Tokens {
  import opened Results

  /** `f32` payloads. The engine never inspects them, so they are modelled as reals. */
  type F32 = real

  const I64_MIN: int := -0x8000_0000_0000_0000
  const I64_MAX: int := 0x7FFF_FFFF_FFFF_FFFF

  /** A signed 64-bit integer, the payload of an integer literal. */
  type I64 = i: int | I64_MIN <= i <= I64_MAX

  /** The evaluation point (`Vec3`). */
  datatype Point = Point(x: F32, y: F32, z: F32)

  datatype FunctionType = Sin | Cos | Tan | Abs

  /** The lower-case name a function call is written with. */
  function Name(f: FunctionType): string
  {
    match f
    case Sin => "sin"
    case Cos => "cos"
    case Tan => "tan"
    case Abs => "abs"
  }

  datatype Operator = Addition | Multiplication | Subtraction | Division | Exponentiation

  /** `Operator::get_precedence`. */
  function Precedence(op: Operator): (p: nat)
    ensures p in {5, 10, 15}
  {
    match op
    case Addition => 5
    case Multiplication => 10
    case Subtraction => 5
    case Division => 10
    case Exponentiation => 15
  }

  /** The character an operator is written with. */
  function Symbol(op: Operator): char
  {
    match op
    case Addition => '+'
    case Multiplication => '*'
    case Subtraction => '-'
    case Division => '/'
    case Exponentiation => '^'
  }

  /** The parse-time token tree. `Float` is never produced by the parser itself. */
  datatype FuncNode =
    | Time
    | PointX
    | PointY
    | PointZ
    | Int(i: I64)
    | Float(x: F32)
    | BuiltinFunction(func: FunctionType, args: seq<FuncNode>)
    | Parentheses(nodes: seq<FuncNode>)
    | BinaryOperationSymbol(op: Operator)
}
